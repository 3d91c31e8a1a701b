/**
 The scanner that the text tools of the language server share.  It steps over string literals, line comments
 and block comments, and looks at every other byte.  A text is a sequence of bytes.
 */
module TextScan {

  predicate LineComment(s: string) {
    |s| >= 2 && s[0] == '/' && s[1] == '/'
  }

  predicate BlockComment(s: string) {
    |s| >= 2 && s[0] == '/' && s[1] == '*'
  }

  /** The scanner looks at the first byte itself. */
  predicate Plain(s: string)
    requires s != ""
  {
    s[0] != '"' && !LineComment(s) && !BlockComment(s)
  }

  /** From `c` on: just past the closing quote, or the end of the text.  A backslash hides the next byte. */
  function StringEnd(s: string, c: nat): (r: nat)
    ensures c <= |s| ==> c <= r
    ensures r <= |s|
    decreases |s| - c
  {
    if c >= |s| then |s|
    else if s[c] == '\\' then StringEnd(s, c + 2)
    else if s[c] == '"' then c + 1
    else StringEnd(s, c + 1)
  }

  /** There is a closing quote. */
  predicate StringCloses(s: string, c: nat)
    decreases |s| - c
  {
    c < |s| && (if s[c] == '\\' then StringCloses(s, c + 2) else s[c] == '"' || StringCloses(s, c + 1))
  }

  function LineEnd(s: string, c: nat): (r: nat)
    requires c <= |s|
    ensures c <= r <= |s| && (r < |s| ==> s[r] == '\n') && forall k :: c <= k < r ==> s[k] != '\n'
    decreases |s| - c
  {
    if c == |s| || s[c] == '\n' then c else LineEnd(s, c + 1)
  }

  function CommentEnd(s: string, c: nat): (r: nat)
    ensures c <= |s| ==> c <= r
    ensures r <= |s|
    decreases |s| - c
  {
    if c + 1 >= |s| then |s| else if s[c] == '*' && s[c + 1] == '/' then c + 2 else CommentEnd(s, c + 1)
  }

  predicate CommentCloses(s: string, c: nat)
    decreases |s| - c
  {
    c + 1 < |s| && ((s[c] == '*' && s[c + 1] == '/') || CommentCloses(s, c + 1))
  }

  /** How many bytes one step of the scanner takes. */
  function Token(s: string): (n: nat)
    requires s != ""
    ensures 1 <= n <= |s|
    ensures Plain(s) ==> n == 1
    ensures LineComment(s) ==> n >= 2
  {
    if s[0] == '"' then StringEnd(s, 1)
    else if LineComment(s) then
      assert s[1] != '\n';
      LineEnd(s, 2)
    else if BlockComment(s) then CommentEnd(s, 2)
    else 1
  }

  function Blanks(n: nat): (r: string)
    ensures |r| == n && forall k :: 0 <= k < n ==> r[k] == ' '
  {
    seq(n, _ => ' ')
  }

  /** The text with strings and comments blanked out. */
  function Mask(s: string): (m: string)
    ensures |m| == |s|
  {
    if s == "" then "" else if Plain(s) then [s[0]] + Mask(s[1..]) else Blanks(Token(s)) + Mask(s[Token(s)..])
  }

  /** Without quotes and comment openers nothing is blanked out. */
  lemma {:induction false} NothingMasked(s: string)
    requires forall k :: 0 <= k < |s| ==> Plain(s[k..])
    ensures Mask(s) == s
  {
    if s != "" {
      assert s[0..] == s;
      forall k | 0 <= k < |s| - 1 ensures Plain(s[1..][k..]) {
        assert s[1..][k..] == s[k + 1..];
      }
      NothingMasked(s[1..]);
    }
  }

  /** One step of the scanner from a cursor: the rest of the mask. */
  lemma MaskStep(s: string, cursor: nat)
    requires cursor < |s|
    ensures var n := cursor + Token(s[cursor..]);
            && (Plain(s[cursor..]) ==> Mask(s[cursor..]) == [s[cursor]] + Mask(s[cursor + 1..]))
            && (!Plain(s[cursor..]) ==> Mask(s[cursor..]) == Blanks(n - cursor) + Mask(s[n..]))
  {
    hide Token, Plain;
    var t := s[cursor..];
    assert t[1..] == s[cursor + 1..] && t[Token(t)..] == s[cursor + Token(t)..];
  }

  // ----- where strings and block comments end -----

  /** How many backslashes stand directly before `k`, not looking before `c`. */
  function Slashes(s: string, c: nat, k: nat): nat
    requires k <= |s|
  {
    if c < k && s[k - 1] == '\\' then 1 + Slashes(s, c, k - 1) else 0
  }

  /** A quote at `k` that no backslash hides. */
  predicate Quote(s: string, c: nat, k: nat) {
    c <= k < |s| && s[k] == '"' && Slashes(s, c, k) % 2 == 0
  }

  /** Backslashes come in pairs: leaving out an escaped byte does not change what is hidden later. */
  lemma {:induction false} SlashesSkip(s: string, c: nat, k: nat)
    requires c < |s| && s[c] == '\\' && c + 2 <= k <= |s|
    ensures Slashes(s, c, k) % 2 == Slashes(s, c + 2, k) % 2
    decreases k
  {
    if s[k - 1] == '\\' {
      if k > c + 2 {
        SlashesSkip(s, c, k - 1);
      } else {
        assert Slashes(s, c, c + 1) == 1 + Slashes(s, c, c);
      }
    }
  }

  lemma {:induction false} SlashesLater(s: string, c: nat, k: nat)
    requires c < k <= |s| && s[c] != '\\'
    ensures Slashes(s, c, k) == Slashes(s, c + 1, k)
    decreases k
  {
    if s[k - 1] == '\\' {
      SlashesLater(s, c, k - 1);
    }
  }

  /** A string ends just past its first quote that no backslash hides, or with the text if there is none. */
  lemma {:induction false} StringEndsAtQuote(s: string, c: nat)
    ensures StringCloses(s, c) <==> exists k: nat :: Quote(s, c, k)
    ensures StringCloses(s, c) ==> StringEnd(s, c) > 0 && FirstQuote(s, c, StringEnd(s, c) - 1)
    ensures !StringCloses(s, c) ==> StringEnd(s, c) == |s|
    decreases |s| - c
  {
    if c < |s| {
      if s[c] == '\\' {
        StringEndsAtQuote(s, c + 2);
        forall k: nat ensures Quote(s, c, k) <==> Quote(s, c + 2, k) {
          QuoteSkip(s, c, k);
        }
        SameQuotes(s, c, c + 2);
        StringSkips(s, c);
      } else if s[c] == '"' {
        assert Quote(s, c, c);
      } else {
        StringEndsAtQuote(s, c + 1);
        forall k: nat ensures Quote(s, c, k) <==> Quote(s, c + 1, k) {
          if c < k < |s| {
            SlashesLater(s, c, k);
          }
        }
        SameQuotes(s, c, c + 1);
      }
    }
  }

  lemma SameQuotes(s: string, c: nat, d: nat)
    requires forall k: nat :: Quote(s, c, k) <==> Quote(s, d, k)
    ensures (exists k: nat :: Quote(s, c, k)) <==> (exists k: nat :: Quote(s, d, k))
    ensures forall k: nat :: FirstQuote(s, c, k) <==> FirstQuote(s, d, k)
  {
    hide Quote;
    if k: nat :| Quote(s, c, k) {
      assert Quote(s, d, k);
    }
  }

  predicate FirstQuote(s: string, c: nat, k: nat) {
    Quote(s, c, k) && forall i: nat :: i < k ==> !Quote(s, c, i)
  }

  lemma StringSkips(s: string, c: nat)
    requires c < |s| && s[c] == '\\'
    ensures StringCloses(s, c) == StringCloses(s, c + 2) && StringEnd(s, c) == StringEnd(s, c + 2)
  {
  }

  lemma QuoteSkip(s: string, c: nat, k: nat)
    requires c < |s| && s[c] == '\\'
    ensures Quote(s, c, k) <==> Quote(s, c + 2, k)
  {
    if c + 2 <= k < |s| {
      SlashesSkip(s, c, k);
    } else if k == c + 1 < |s| {
      assert Slashes(s, c, c + 1) == 1 + Slashes(s, c, c);
    }
  }

  predicate Closer(s: string, k: nat) {
    k + 1 < |s| && s[k] == '*' && s[k + 1] == '/'
  }

  /** A block comment ends after its first closer, or with the text if there is none. */
  lemma {:induction false} CommentEndsAtCloser(s: string, c: nat)
    ensures CommentCloses(s, c) <==> exists k: nat :: c <= k && Closer(s, k)
    ensures CommentCloses(s, c) ==>
              var k := CommentEnd(s, c) - 2; k >= c && Closer(s, k) && forall i: nat :: c <= i < k ==> !Closer(s, i)
    ensures !CommentCloses(s, c) ==> CommentEnd(s, c) == |s|
    decreases |s| - c
  {
    if c + 1 < |s| && !Closer(s, c) {
      CommentEndsAtCloser(s, c + 1);
    }
  }

  /** The first `n` bytes are a string up to its closing quote, a comment up to its end, or one byte of code. */
  ghost predicate OneToken(s: string, n: nat)
    requires s != ""
  {
    if s[0] == '"' then if exists k: nat :: Quote(s, 1, k) then n > 0 && FirstQuote(s, 1, n - 1) else n == |s|
    else if |s| >= 2 && s[0] == '/' && s[1] == '/' then
      2 <= n <= |s| && (n == |s| || s[n] == '\n') && forall k :: 2 <= k < n ==> s[k] != '\n'
    else if |s| >= 2 && s[0] == '/' && s[1] == '*' then
      if exists k: nat :: 2 <= k && Closer(s, k) then
        n >= 4 && Closer(s, n - 2) && forall k: nat :: 2 <= k < n - 2 ==> !Closer(s, k)
      else n == |s|
    else n == 1
  }

  /** The mask, token by token: blanks for strings and comments, and every other byte as it is. */
  lemma MaskIs(s: string, n: nat)
    requires s != "" && OneToken(s, n)
    ensures n <= |s|
    ensures Mask(s) ==
              (if s[0] == '"' || (|s| >= 2 && s[0] == '/' && s[1] in "/*") then Blanks(n) else [s[0]]) + Mask(s[n..])
  {
    TokenIs(s, n);
    hide OneToken, Token;
  }

  lemma TokenIs(s: string, n: nat)
    requires s != ""
    ensures OneToken(s, n) <==> n == Token(s)
  {
    StringEndsAtQuote(s, 1);
    CommentEndsAtCloser(s, 2);
    hide StringEnd, CommentEnd, StringCloses, CommentCloses, Quote;
  }

  // ----- the skipping loops -----

  lemma {:induction false} StringEndFrom(s: string, at: nat, c: nat)
    requires at <= |s|
    ensures at + StringEnd(s[at..], c) == if at + c <= |s| then StringEnd(s, at + c) else |s|
    decreases |s| - c
  {
    if at + c < |s| {
      assert s[at..][c] == s[at + c];
      StringEndFrom(s, at, c + 2);
      StringEndFrom(s, at, c + 1);
    }
  }

  lemma {:induction false} CommentEndFrom(s: string, at: nat, c: nat)
    requires at <= |s|
    ensures at + CommentEnd(s[at..], c) == if at + c <= |s| then CommentEnd(s, at + c) else |s|
    decreases |s| - c
  {
    if at + c + 1 < |s| {
      assert s[at..][c] == s[at + c] && s[at..][c + 1] == s[at + c + 1];
      CommentEndFrom(s, at, c + 1);
    }
  }

  method SkipString(bytes: string, start: nat) returns (cursor: nat)
    requires start < |bytes| && bytes[start] == '"'
    ensures cursor == start + Token(bytes[start..])
    ensures var from := start + 1;
            if exists k: nat :: Quote(bytes, from, k)
            then cursor >= 1 && Quote(bytes, from, cursor - 1) &&
              forall i: nat :: i < cursor - 1 ==> !Quote(bytes, from, i)
            else cursor == |bytes|
  {
    StringEndsAtQuote(bytes, start + 1);
    StringEndFrom(bytes, start, 1);
    cursor := start + 1;
    while cursor < |bytes|
      invariant StringEnd(bytes, cursor) == StringEnd(bytes, start + 1)
    {
      if bytes[cursor] == '\\' {
        cursor := cursor + 2;
      } else if bytes[cursor] == '"' {
        return cursor + 1;
      } else {
        cursor := cursor + 1;
      }
    }
    cursor := |bytes|;
  }

  method SkipLine(bytes: string, start: nat) returns (cursor: nat)
    requires start < |bytes| && LineComment(bytes[start..])
    ensures cursor == start + Token(bytes[start..])
  {
    ghost var t := bytes[start..];
    assert bytes[start] == t[0] && bytes[start + 1] == t[1];
    cursor := start;
    while cursor < |bytes| && bytes[cursor] != '\n'
      invariant start <= cursor <= |bytes|
      invariant forall k :: start <= k < cursor ==> bytes[k] != '\n'
    {
      cursor := cursor + 1;
    }
    ghost var n := Token(t);
    assert n < |t| ==> bytes[start + n] == t[n];
    assert forall k :: 2 <= k < n ==> t[k] == bytes[start + k];
  }

  method SkipBlockComment(bytes: string, start: nat) returns (cursor: nat)
    requires start < |bytes| && BlockComment(bytes[start..])
    ensures cursor == start + Token(bytes[start..])
    ensures var from := start + 2;
            if exists k: nat :: from <= k && Closer(bytes, k)
            then cursor >= 2 && Closer(bytes, cursor - 2) &&
              forall i: nat :: from <= i < cursor - 2 ==> !Closer(bytes, i)
            else cursor == |bytes|
  {
    CommentEndsAtCloser(bytes, start + 2);
    CommentEndFrom(bytes, start, 2);
    cursor := start + 2;
    while cursor + 1 < |bytes|
      invariant cursor <= |bytes|
      invariant CommentEnd(bytes, cursor) == CommentEnd(bytes, start + 2)
    {
      if bytes[cursor] == '*' && bytes[cursor + 1] == '/' {
        return cursor + 2;
      }
      cursor := cursor + 1;
    }
    cursor := |bytes|;
  }

  /** One step of the scanner over anything that it does not look into. */
  method SkipToken(bytes: string, start: nat) returns (cursor: nat)
    requires start < |bytes| && !Plain(bytes[start..])
    ensures cursor == start + Token(bytes[start..])
  {
    assert bytes[start..][0] == bytes[start];
    if bytes[start] == '"' {
      cursor := SkipString(bytes, start);
    } else if bytes[start + 1] == '/' {
      cursor := SkipLine(bytes, start);
    } else {
      cursor := SkipBlockComment(bytes, start);
    }
  }

  // ----- code positions -----

  /** After `n` bytes the scanner is in code: no string and no comment is open, the byte before is not the
      first of a comment opener, and a line comment has seen the end of its line. */
  predicate CodeAt(s: string, n: nat)
    decreases n
  {
    n <= |s| &&
    (n == 0 ||
     (if Plain(s) then CodeAt(s[1..], n - 1)
      else if s[0] == '"' then StringCloses(s, 1) && Token(s) <= n && CodeAt(s[Token(s)..], n - Token(s))
      else if LineComment(s) then Token(s) < n && CodeAt(s[Token(s)..], n - Token(s))
      else CommentCloses(s, 2) && Token(s) <= n && CodeAt(s[Token(s)..], n - Token(s))))
  }

  /** A closed string ends where its closing quote is, whatever follows. */
  lemma {:induction false} StringLocal(s: string, t: string, c: nat, n: nat)
    requires StringCloses(s, c) && StringEnd(s, c) <= n <= |s| && n <= |t| && s[..n] == t[..n]
    ensures StringCloses(t, c) && StringEnd(t, c) == StringEnd(s, c)
    decreases |s| - c
  {
    StringNotPast(s, c);
    assert s[..n][c] == t[..n][c];
    if s[c] == '\\' {
      StringLocal(s, t, c + 2, n);
    } else if s[c] != '"' {
      StringLocal(s, t, c + 1, n);
    }
  }

  lemma {:induction false} StringNotPast(s: string, c: nat)
    requires StringCloses(s, c)
    ensures c < StringEnd(s, c)
    decreases |s| - c
  {
    if s[c] == '\\' {
      StringNotPast(s, c + 2);
    } else if s[c] != '"' {
      StringNotPast(s, c + 1);
    }
  }

  lemma {:induction false} CommentLocal(s: string, t: string, c: nat, n: nat)
    requires CommentCloses(s, c) && CommentEnd(s, c) <= n <= |s| && n <= |t| && s[..n] == t[..n]
    ensures CommentCloses(t, c) && CommentEnd(t, c) == CommentEnd(s, c)
    decreases |s| - c
  {
    CommentNotPast(s, c);
    assert s[..n][c] == t[..n][c] && s[..n][c + 1] == t[..n][c + 1];
    if !(s[c] == '*' && s[c + 1] == '/') {
      CommentLocal(s, t, c + 1, n);
    }
  }

  lemma {:induction false} CommentNotPast(s: string, c: nat)
    requires CommentCloses(s, c)
    ensures c + 1 < CommentEnd(s, c)
    decreases |s| - c
  {
    if !(s[c] == '*' && s[c + 1] == '/') {
      CommentNotPast(s, c + 1);
    }
  }

  /** Bytes that cannot start or continue a string or a comment. */
  predicate InertByte(c: char) {
    c != '"' && c != '/' && c != '*'
  }

  predicate Inert(s: string) {
    forall k :: 0 <= k < |s| ==> InertByte(s[k])
  }

  lemma {:induction false} InertMask(ins: string, q: string)
    requires Inert(ins)
    ensures Mask(ins + q) == ins + Mask(q)
  {
    if ins == "" {
      assert ins + q == q;
    } else {
      assert (ins + q)[1..] == ins[1..] + q;
      InertMask(ins[1..], q);
    }
  }

  lemma LineLocal(s: string, t: string, n: nat)
    requires 2 <= n <= |s| && n <= |t| && s[..n] == t[..n] && LineEnd(s, 2) < n
    ensures LineEnd(t, 2) == LineEnd(s, 2)
  {
    var k, r := LineEnd(s, 2), LineEnd(t, 2);
    forall i | 0 <= i < n ensures s[i] == t[i] {
      assert s[..n][i] == t[..n][i];
    }
  }

  /** A token that ends inside the unchanged part is the same token. */
  lemma TokenLocal(s: string, t: string, n: nat)
    requires CodeAt(s, n) && 0 < n <= |t| && s[..n] == t[..n]
    requires n == |t| || (n < |s| && s[n] == t[n]) || InertByte(t[n])
    ensures Plain(s) == Plain(t) && Token(s) == Token(t) <= n
    ensures !Plain(s) ==> CodeAt(s[Token(s)..], n - Token(s))
    ensures Plain(s) ==> CodeAt(s[1..], n - 1)
  {
    assert s[..n][0] == t[..n][0];
    if n > 1 {
      assert s[..n][1] == t[..n][1];
    }
    if Plain(s) {
    } else if s[0] == '"' {
      StringLocal(s, t, 1, n);
    } else if LineComment(s) {
      LineLocal(s, t, n);
    } else {
      CommentNotPast(s, 2);
      CommentLocal(s, t, 2, n);
    }
  }

  lemma InertAfter(p: string, ins: string, q: string)
    requires p != "" && CodeAt(p + q, |p|) && Inert(ins)
    ensures var s, t := p + q, p + ins + q;
            && Plain(s) == Plain(t) && Token(s) == Token(t) <= |p|
            && CodeAt(p[Token(s)..] + q, |p| - Token(s))
  {
    var s, t := p + q, p + ins + q;
    assert s[..|p|] == p && t[..|p|] == p;
    if ins == "" {
      assert t == s;
    } else {
      assert t[|p|] == ins[0];
    }
    TokenLocal(s, t, |p|);
    hide CodeAt, Token;
    assert s[Token(s)..] == p[Token(s)..] + q;
  }

  lemma MaskHead(s: string)
    requires s != ""
    ensures Mask(s) == (if Plain(s) then [s[0]] else Blanks(Token(s))) + Mask(s[Token(s)..])
  {
    assert s[0..] == s;
    MaskStep(s, 0);
  }

  /** Inert bytes inserted in code stay what they are, and nothing around them changes its role. */
  lemma {:induction false} MaskSplice(p: string, ins: string, q: string)
    requires CodeAt(p + q, |p|) && Inert(ins)
    ensures Mask(p + q)[|p|..] == Mask(q)
    ensures Mask(p + ins + q) == Mask(p + q)[..|p|] + ins + Mask(q)
    decreases |p|
  {
    hide *;
    var s, t := p + q, p + ins + q;
    if p == "" {
      assert s == q && t == ins + q;
      InertMask(ins, q);
    } else {
      InertAfter(p, ins, q);
      MaskHead(s);
      MaskHead(t);
      var k := Token(s);
      var head := if Plain(s) then [s[0]] else Blanks(k);
      assert s[k..] == p[k..] + q && t[k..] == p[k..] + ins + q;
      MaskSplice(p[k..], ins, q);
      Prepend(head, Mask(s[k..]), ins, Mask(q), |p| - k);
    }
  }

  lemma Prepend(head: string, rest: string, ins: string, q: string, n: nat)
    requires n <= |rest|
    ensures (head + rest)[|head| + n..] == rest[n..]
    ensures head + (rest[..n] + ins + q) == (head + rest)[..|head| + n] + ins + q
  {
  }

  // ----- offsets that are not in code -----

  /** The scan of a string body that starts at `c` looks at byte `n`, or ends the text there. */
  predicate StringAt(s: string, c: nat, n: nat)
    decreases |s| - c
  {
    n <= |s| &&
    (c == n || (c < n && c < |s| &&
      (if s[c] == '\\' then StringAt(s, c + 2, n) else s[c] != '"' && StringAt(s, c + 1, n))))
  }

  /** After `n` bytes the scanner is inside a string or a comment: past the opener, before the closer, and not
      between a backslash and the byte it hides. */
  predicate Inside(s: string, n: nat)
    decreases n
  {
    n <= |s| && 0 < n &&
    (if Plain(s) then Inside(s[1..], n - 1)
     else
       || Within(s, n)
       || (Token(s) < n && Inside(s[Token(s)..], n - Token(s))))
  }

  /** Inside the string or comment that the text starts with. */
  predicate Within(s: string, n: nat)
    requires s != "" && !Plain(s)
  {
    if s[0] == '"' then StringAt(s, 1, n)
    else if LineComment(s) then 2 <= n <= Token(s)
    else 2 <= n && (if CommentCloses(s, 2) then n + 2 <= Token(s) else n <= |s|)
  }

  /** Offset `n` splits a comment opener, a comment closer or an escape. */
  predicate Splits(s: string, n: nat)
    decreases n
  {
    n <= |s| && 0 < n &&
    (if Plain(s) then Splits(s[1..], n - 1)
     else
       || SplitsFirst(s, n)
       || (Token(s) < n && Splits(s[Token(s)..], n - Token(s))))
  }

  predicate SplitsFirst(s: string, n: nat)
    requires s != "" && !Plain(s)
  {
    if s[0] == '"' then Hidden(s, 1, n)
    else n == 1 || (BlockComment(s) && CommentCloses(s, 2) && n + 1 == Token(s))
  }

  /** Byte `n` is hidden by a backslash that the scan of the string body looks at. */
  predicate Hidden(s: string, c: nat, n: nat) {
    c < n <= |s| && StringAt(s, c, n - 1) && s[n - 1] == '\\'
  }

  lemma {:induction false} StringCovered(s: string, c: nat, n: nat)
    requires c <= n <= |s|
    ensures StringCloses(s, c) && StringEnd(s, c) <= n ==> !StringAt(s, c, n) && !Hidden(s, c, n)
    ensures !(StringCloses(s, c) && StringEnd(s, c) <= n) ==> StringAt(s, c, n) != Hidden(s, c, n)
    decreases |s| - c
  {
    if StringCloses(s, c) {
      StringNotPast(s, c);
    }
    if c < n {
      if s[c] == '\\' {
        StringSkips(s, c);
        if c + 2 <= n {
          StringCovered(s, c + 2, n);
          HiddenSkip(s, c, n);
        } else {
          assert StringAt(s, c, c);
          if StringCloses(s, c + 2) {
            StringNotPast(s, c + 2);
          }
        }
      } else if s[c] != '"' {
        StringCovered(s, c + 1, n);
        if c + 1 < n {
          assert StringAt(s, c, n - 1) == StringAt(s, c + 1, n - 1);
        }
      } else if n > c + 1 {
        assert !StringAt(s, c, n - 1);
      }
    }
  }

  lemma HiddenSkip(s: string, c: nat, n: nat)
    requires c + 2 <= n <= |s| && s[c] == '\\'
    ensures StringAt(s, c, n) == StringAt(s, c + 2, n) && Hidden(s, c, n) == Hidden(s, c + 2, n)
  {
    if n == c + 2 {
      assert !StringAt(s, c + 2, c + 1);
      assert StringAt(s, c, c + 1) == StringAt(s, c + 2, c + 1);
    } else {
      assert StringAt(s, c, n - 1) == StringAt(s, c + 2, n - 1);
    }
  }

  /** A string or block comment without an end takes the rest of the text. */
  lemma OpenToEnd(s: string)
    requires s != "" && !Plain(s) && !Closes(s) && !LineComment(s)
    ensures Token(s) == |s|
  {
    StringEndsAtQuote(s, 1);
    CommentEndsAtCloser(s, 2);
  }

  /** Every offset is in code, inside a string or comment, or splits something: one of the three. */
  lemma {:induction false} Everywhere(s: string, n: nat)
    requires n <= |s|
    ensures CodeAt(s, n) ==> !Inside(s, n) && !Splits(s, n)
    ensures Inside(s, n) ==> !Splits(s, n)
    ensures CodeAt(s, n) || Inside(s, n) || Splits(s, n)
    decreases n
  {
    if n > 0 {
      if Plain(s) {
        Everywhere(s[1..], n - 1);
      } else {
        var k := Token(s);
        if k < n {
          Everywhere(s[k..], n - k);
        }
        FirstToken(s, n);
        if !Closes(s) && !LineComment(s) {
          OpenToEnd(s);
        }
        hide Within, SplitsFirst, Token;
      }
    }
  }

  /** What the first token decides, for offsets up to its end. */
  lemma FirstToken(s: string, n: nat)
    requires s != "" && !Plain(s) && 0 < n <= |s|
    ensures !(Within(s, n) && SplitsFirst(s, n))
    ensures n < Token(s) ==> Within(s, n) || SplitsFirst(s, n)
    ensures n > Token(s) ==> !Within(s, n) && !SplitsFirst(s, n)
    ensures n == Token(s) && Closes(s) ==> !Within(s, n) && !SplitsFirst(s, n)
    ensures n == Token(s) && !Closes(s) ==> Within(s, n) || SplitsFirst(s, n)
  {
    if !Closes(s) && !LineComment(s) {
      OpenToEnd(s);
    }
    if s[0] == '"' {
      StringCovered(s, 1, n);
    } else if BlockComment(s) && CommentCloses(s, 2) {
      CommentNotPast(s, 2);
    }
  }

  /** The string or comment that the text starts with has an end of its own before or at the end of the text;
      a line comment never does, since its line feed is not part of it. */
  predicate Closes(s: string)
    requires s != "" && !Plain(s)
  {
    if s[0] == '"' then StringCloses(s, 1) else BlockComment(s) && CommentCloses(s, 2)
  }

  // ----- insertions inside strings and comments -----

  /** Bytes that neither end nor extend a string or a comment, nor hide the byte after them. */
  predicate Quiet(s: string) {
    forall k :: 0 <= k < |s| ==> InertByte(s[k]) && s[k] != '\\' && s[k] != '\n'
  }

  lemma {:induction false} StringOver(ins: string, q: string, c: nat)
    requires Quiet(ins) && c <= |ins|
    ensures StringEnd(ins + q, c) == |ins| + StringEnd(q, 0)
    decreases |ins| - c
  {
    if c < |ins| {
      assert (ins + q)[c] == ins[c];
      StringOver(ins, q, c + 1);
    } else {
      StringEndFrom(ins + q, |ins|, 0);
      assert (ins + q)[|ins|..] == q;
    }
  }

  lemma {:induction false} StringGrows(p: string, ins: string, q: string, c: nat)
    requires Quiet(ins) && StringAt(p + q, c, |p|) && c <= |p|
    ensures StringEnd(p + ins + q, c) == StringEnd(p + q, c) + |ins|
    decreases |p| - c
  {
    var s, t := p + q, p + ins + q;
    if c == |p| {
      StringOver(ins, q, 0);
      StringEndFrom(t, |p|, 0);
      StringEndFrom(s, |p|, 0);
      assert t[|p|..] == ins + q && s[|p|..] == q;
    } else {
      assert s[c] == t[c] == p[c];
      StringGrows(p, ins, q, if s[c] == '\\' then c + 2 else c + 1);
    }
  }

  lemma {:induction false} CommentOver(ins: string, q: string, c: nat)
    requires Quiet(ins) && c <= |ins|
    ensures CommentEnd(ins + q, c) == |ins| + CommentEnd(q, 0)
    decreases |ins| - c
  {
    var t := ins + q;
    if c < |ins| {
      assert t[c] == ins[c];
      if c + 1 < |t| {
        CommentOver(ins, q, c + 1);
      } else {
        assert q == "";
      }
    } else {
      CommentEndFrom(t, |ins|, 0);
      assert t[|ins|..] == q;
    }
  }

  lemma {:induction false} CommentGrows(p: string, ins: string, q: string, c: nat)
    requires Quiet(ins) && c <= |p| && forall k: nat :: c <= k < |p| ==> !Closer(p + q, k)
    ensures CommentEnd(p + ins + q, c) == CommentEnd(p + q, c) + |ins|
    decreases |p| - c
  {
    var s, t := p + q, p + ins + q;
    hide *;
    if ins == "" {
      assert t == s;
    } else if c == |p| {
      CommentOver(ins, q, 0);
      CommentEndFrom(t, |p|, 0);
      CommentEndFrom(s, |p|, 0);
      assert t[|p|..] == ins + q && s[|p|..] == q;
    } else {
      NotACloser(p, ins, q, c);
      CommentNext(s, c);
      CommentNext(t, c);
      if c + 1 < |p| || q != "" {
        CommentGrows(p, ins, q, c + 1);
      } else {
        CommentOver(ins, q, 0);
        CommentEndFrom(t, |p|, 0);
        NoComment(q);
        assert t[|p|..] == ins + q;
      }
    }
  }

  lemma NotACloser(p: string, ins: string, q: string, c: nat)
    requires Quiet(ins) && ins != "" && c < |p| && !Closer(p + q, c)
    ensures !Closer(p + ins + q, c)
  {
    var t := p + ins + q;
    assert t[c] == p[c];
    if c + 1 < |p| {
      assert t[c + 1] == p[c + 1] == (p + q)[c + 1];
    } else {
      assert t[c + 1] == ins[0];
    }
  }

  lemma CommentNext(s: string, c: nat)
    requires c < |s| && !Closer(s, c)
    ensures CommentEnd(s, c) == if c + 1 < |s| then CommentEnd(s, c + 1) else |s|
  {
  }

  lemma NoComment(s: string)
    requires s == ""
    ensures CommentEnd(s, 0) == 0
  {
  }

  lemma LineGrows(p: string, ins: string, q: string, c: nat)
    requires Quiet(ins) && c <= |p| <= LineEnd(p + q, c)
    ensures LineEnd(p + ins + q, c) == LineEnd(p + q, c) + |ins|
  {
    var s, t := p + q, p + ins + q;
    var k := LineEnd(s, c);
    forall i | c <= i < k + |ins| ensures t[i] != '\n' {
      if i < |p| {
        assert t[i] == s[i];
      } else if i >= |p| + |ins| {
        assert t[i] == s[i - |ins|];
      } else {
        assert t[i] == ins[i - |p|];
      }
    }
    assert k < |s| ==> t[k + |ins|] == s[k];
  }

  /** A string or comment grows by what is inserted into it. */
  lemma TokenGrows(p: string, ins: string, q: string)
    requires p + q != "" && !Plain(p + q) && Within(p + q, |p|) && Quiet(ins) && |p| > 0
    ensures var s, t := p + q, p + ins + q;
            t != "" && !Plain(t) && Token(t) == Token(s) + |ins| && t[Token(t)..] == s[Token(s)..] && |p| <= Token(s)
  {
    var s, t := p + q, p + ins + q;
    assert s[0] == t[0] == p[0];
    if s[0] == '"' {
      StringAtNotPast(s, 1, |p|);
      StringGrows(p, ins, q, 1);
    } else {
      assert s[1] == t[1] == p[1];
      if LineComment(s) {
        LineGrows(p, ins, q, 2);
      } else {
        CommentEndsAtCloser(s, 2);
        CommentGrows(p, ins, q, 2);
      }
    }
    hide StringEnd, CommentEnd, LineEnd;
    var k := Token(s);
    assert t[k + |ins|..] == s[k..];
  }

  lemma {:induction false} StringAtNotPast(s: string, c: nat, n: nat)
    requires StringAt(s, c, n)
    ensures n <= StringEnd(s, c)
    decreases |s| - c
  {
    if c < n {
      StringAtNotPast(s, if s[c] == '\\' then c + 2 else c + 1, n);
    }
  }

  /** A string or comment that ends before `n` is the same in any text with the same first `n` bytes. */
  lemma TokenKept(s: string, t: string, n: nat)
    requires s != "" && !Plain(s) && Token(s) < n <= |s| && n <= |t| && s[..n] == t[..n]
    ensures !Plain(t) && Token(t) == Token(s)
  {
    assert s[..n][0] == t[..n][0] && s[..n][1] == t[..n][1];
    if s[0] == '"' {
      StringEndsAtQuote(s, 1);
      StringLocal(s, t, 1, n);
    } else if LineComment(s) {
      LineLocal(s, t, n);
    } else {
      CommentEndsAtCloser(s, 2);
      CommentLocal(s, t, 2, n);
    }
  }

  /** Quiet bytes inserted inside a string or comment are blanked out, and nothing around them changes its
      role. */
  lemma {:induction false} QuietSplice(p: string, ins: string, q: string)
    requires Inside(p + q, |p|) && Quiet(ins)
    ensures Mask(p + ins + q) == Mask(p + q)[..|p|] + Blanks(|ins|) + Mask(p + q)[|p|..]
    decreases |p|
  {
    hide *;
    var s, t := p + q, p + ins + q;
    InsideCases(s, |p|);
    SameFront(p, ins, q);
    var k := Token(s);
    if Plain(s) {
      PlainKept(s, t, |p|);
    } else if Within(s, |p|) {
      TokenGrows(p, ins, q);
    } else {
      TokenKept(s, t, |p|);
    }
    MaskHead(s);
    MaskHead(t);
    if !Plain(s) && Within(s, |p|) {
      BlankInside(k, Mask(s[k..]), |ins|, |p|);
    } else {
      DropHead(p, ins, q, k);
      QuietSplice(p[k..], ins, q);
      BlankAfter(if Plain(s) then [s[0]] else Blanks(k), Mask(s[k..]), |ins|, |p| - k);
    }
  }

  lemma InsideCases(s: string, n: nat)
    requires Inside(s, n)
    ensures 0 < n <= |s| && s != ""
    ensures Plain(s) ==> Token(s) == 1 && Inside(s[1..], n - 1)
    ensures !Plain(s) ==> Within(s, n) || (Token(s) < n && Inside(s[Token(s)..], n - Token(s)))
  {
  }

  lemma PlainKept(s: string, t: string, n: nat)
    requires s != "" && Plain(s) && Inside(s, n) && n <= |t| && s[..n] == t[..n]
    ensures Plain(t) && Inside(s[1..], n - 1) && Token(s) == Token(t) == 1 && n > 1 && s[0] == t[0]
  {
    assert s[..n][0] == t[..n][0];
    assert Inside(s[1..], n - 1);
    assert s[..n][1] == t[..n][1];
  }

  lemma SameFront(p: string, ins: string, q: string)
    ensures (p + q)[..|p|] == p && (p + ins + q)[..|p|] == p
  {
  }

  lemma DropHead(p: string, ins: string, q: string, k: nat)
    requires k <= |p|
    ensures (p + q)[k..] == p[k..] + q && (p + ins + q)[k..] == p[k..] + ins + q
  {
  }

  lemma BlankAfter(head: string, rest: string, n: nat, at: nat)
    requires at <= |rest|
    ensures head + (rest[..at] + Blanks(n) + rest[at..]) ==
              (head + rest)[..|head| + at] + Blanks(n) + (head + rest)[|head| + at..]
  {
  }

  lemma BlankInside(k: nat, rest: string, n: nat, at: nat)
    requires at <= k
    ensures Blanks(k + n) + rest == (Blanks(k) + rest)[..at] + Blanks(n) + (Blanks(k) + rest)[at..]
  {
  }
}
