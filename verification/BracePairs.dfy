/**
 Brace matching in the language server: the pairing pass, the innermost function body around an offset, and
 the backward search for the brace that is open at an offset.
 */
module BracePairs {
  import opened TextScan
  import opened Wrappers

  // ----- matching by depth -----

  /** Opening minus closing braces from `o` up to `k`. */
  function Depth(m: string, o: nat, k: nat): int
    requires k <= |m|
    decreases k
  {
    if k <= o then 0 else Depth(m, o, k - 1) + if m[k - 1] == '{' then 1 else if m[k - 1] == '}' then -1 else 0
  }

  /** The brace at `o` is open and was not closed before `n`. */
  predicate StillOpen(m: string, o: nat, n: nat)
    requires n <= |m|
  {
    o < n && m[o] == '{' && forall k :: o < k <= n ==> Depth(m, o, k) > 0
  }

  /** The brace at `c` closes the one at `o`: the depth returns to zero there for the first time. */
  predicate Matches(m: string, o: nat, c: nat) {
    o < c < |m| && m[c] == '}' && StillOpen(m, o, c) && Depth(m, o, c + 1) == 0
  }

  lemma {:induction false} DepthAdd(m: string, o: nat, p: nat, k: nat)
    requires o <= p <= k <= |m|
    ensures Depth(m, o, k) == Depth(m, o, p) + Depth(m, p, k)
    decreases k
  {
    if k > p {
      DepthAdd(m, o, p, k - 1);
    }
  }

  /** Matching braces are nested or apart. */
  lemma NestedOrDisjoint(m: string, o: nat, c: nat, p: nat, d: nat)
    requires Matches(m, o, c) && Matches(m, p, d) && o < p
    ensures c < p || d < c
  {
    if p < c {
      DepthAdd(m, o, p, c + 1);
      assert Depth(m, o, p) > 0 && Depth(m, p, c + 1) < 0;
    }
  }

  // ----- the stack -----

  /** The braces that the pass still holds open after `n` bytes, and the pairs that it has made. */
  datatype Scan = Scan(stack: seq<nat>, pairs: map<nat, nat>)

  function ScanStep(s: Scan, c: char, at: nat): Scan {
    if c == '{' then Scan(s.stack + [at], s.pairs)
    else if c == '}' && s.stack != [] then Scan(s.stack[..|s.stack| - 1], s.pairs[s.stack[|s.stack| - 1] := at])
    else s
  }

  function ScanTo(m: string, n: nat): Scan
    requires n <= |m|
  {
    if n == 0 then Scan([], map[]) else ScanStep(ScanTo(m, n - 1), m[n - 1], n - 1)
  }

  predicate OpenAt(m: string, n: nat, o: nat, depth: nat)
    requires n <= |m|
  {
    StillOpen(m, o, n) && Depth(m, o, n) == depth
  }

  predicate Increasing(stack: seq<nat>) {
    forall i, j :: 0 <= i < j < |stack| ==> stack[i] < stack[j]
  }

  ghost predicate Complete(m: string, n: nat, stack: seq<nat>)
    requires n <= |m|
  {
    forall o: nat :: StillOpen(m, o, n) ==> o in stack
  }

  ghost predicate StackIs(m: string, n: nat, stack: seq<nat>)
    requires n <= |m|
  {
    (forall j :: 0 <= j < |stack| ==> OpenAt(m, n, stack[j], |stack| - j)) && Increasing(stack) && Complete(m, n, stack)
  }

  /** The stack holds exactly the braces that are still open, outermost first. */
  lemma {:induction false} StackExact(m: string, n: nat)
    requires n <= |m|
    ensures StackIs(m, n, ScanTo(m, n).stack)
    decreases n
  {
    if n > 0 {
      StackExact(m, n - 1);
      ScanToStep(m, n);
      hide *;
      StackStep(m, n, ScanTo(m, n - 1).stack, ScanTo(m, n).stack);
    } else {
      NothingOpen(m);
    }
  }

  lemma NothingOpen(m: string)
    ensures StackIs(m, 0, [])
  {
  }

  lemma ScanToStep(m: string, n: nat)
    requires 0 < n <= |m|
    ensures var before, after := ScanTo(m, n - 1).stack, ScanTo(m, n).stack;
            after == if m[n - 1] == '{' then before + [n - 1]
              else if m[n - 1] == '}' && before != [] then before[..|before| - 1] else before
  {
  }

  lemma OpenBefore(m: string, o: nat, n: nat)
    requires 0 < n <= |m|
    ensures StillOpen(m, o, n) <==> if o == n - 1 then m[o] == '{' else StillOpen(m, o, n - 1) && Depth(m, o, n) > 0
  {
    if o == n - 1 {
      assert Depth(m, o, n - 1) == 0;
    }
  }

  lemma StackStep(m: string, n: nat, before: seq<nat>, after: seq<nat>)
    requires 0 < n <= |m| && StackIs(m, n - 1, before)
    requires after == if m[n - 1] == '{' then before + [n - 1]
               else if m[n - 1] == '}' && before != [] then before[..|before| - 1] else before
    ensures StackIs(m, n, after)
  {
    hide StillOpen, Increasing, Depth;
    forall j | 0 <= j < |after| ensures OpenAt(m, n, after[j], |after| - j) {
      EntryStays(m, n, before, after, j);
    }
    IncreasingStep(m, n, before, after);
    forall o: nat | StillOpen(m, o, n) ensures o in after {
      OpenStays(m, n, before, after, o);
    }
  }

  lemma EntryStays(m: string, n: nat, before: seq<nat>, after: seq<nat>, j: nat)
    requires 0 < n <= |m| && StackIs(m, n - 1, before)
    requires after == if m[n - 1] == '{' then before + [n - 1]
               else if m[n - 1] == '}' && before != [] then before[..|before| - 1] else before
    requires j < |after|
    ensures OpenAt(m, n, after[j], |after| - j)
  {
    hide StillOpen, Increasing, Complete;
    OpenBefore(m, after[j], n);
    OpenEarlier(m, after[j], n - 1);
    if j < |before| {
      assert OpenAt(m, n - 1, before[j], |before| - j);
    }
  }

  lemma IncreasingStep(m: string, n: nat, before: seq<nat>, after: seq<nat>)
    requires 0 < n <= |m| && StackIs(m, n - 1, before)
    requires after == if m[n - 1] == '{' then before + [n - 1]
               else if m[n - 1] == '}' && before != [] then before[..|before| - 1] else before
    ensures Increasing(after)
  {
    hide StillOpen, Complete, Depth;
    forall i, j | 0 <= i < j < |after| ensures after[i] < after[j] {
      assert OpenAt(m, n - 1, before[i], |before| - i);
      OpenEarlier(m, before[i], n - 1);
    }
  }

  lemma OpenStays(m: string, n: nat, before: seq<nat>, after: seq<nat>, o: nat)
    requires 0 < n <= |m| && StackIs(m, n - 1, before)
    requires after == if m[n - 1] == '{' then before + [n - 1]
               else if m[n - 1] == '}' && before != [] then before[..|before| - 1] else before
    requires StillOpen(m, o, n)
    ensures o in after
  {
    hide StillOpen, Increasing;
    OpenBefore(m, o, n);
    OpenEarlier(m, o, n);
    if o < n - 1 {
      var j :| 0 <= j < |before| && before[j] == o;
      assert OpenAt(m, n - 1, before[j], |before| - j);
      assert after[j] == o;
    } else {
      assert after[|before|] == o;
    }
  }

  lemma OpenEarlier(m: string, o: nat, n: nat)
    requires n <= |m|
    ensures StillOpen(m, o, n) ==> o < n && m[o] == '{'
  {
  }

  predicate PairIff(m: string, n: nat, pairs: map<nat, nat>, o: nat, c: nat) {
    (o in pairs && pairs[o] == c) <==> (c < n && Matches(m, o, c))
  }

  /** The pairs are exactly the matching braces. */
  lemma {:induction false} PairsExact(m: string, n: nat)
    requires n <= |m|
    ensures forall o: nat, c: nat :: PairIff(m, n, ScanTo(m, n).pairs, o, c)
    decreases n
  {
    if n > 0 {
      PairsExact(m, n - 1);
      StackExact(m, n - 1);
      hide Matches, StackIs;
      var last := n - 1;
      var before := ScanTo(m, last);
      forall o: nat, c: nat ensures PairIff(m, n, ScanTo(m, n).pairs, o, c) {
        PairStep(m, last, before, o, c);
      }
    }
  }

  lemma PairStep(m: string, at: nat, before: Scan, o: nat, c: nat)
    requires at < |m| && StackIs(m, at, before.stack)
    requires forall d: nat :: PairIff(m, at, before.pairs, o, d)
    ensures PairIff(m, at + 1, ScanStep(before, m[at], at).pairs, o, c)
  {
    var stack := before.stack;
    assert PairIff(m, at, before.pairs, o, c);
    if m[at] == '}' && stack != [] && stack[|stack| - 1] == o {
      assert StillOpen(m, o, at) && Depth(m, o, at + 1) == 0;
      assert Matches(m, o, at);
      NotEarlier(m, o, c, at);
    } else if m[at] == '}' && StillOpen(m, o, at) {
      NotTop(m, at + 1, stack, o);
    }
  }

  lemma NotEarlier(m: string, o: nat, c: nat, n: nat)
    requires n <= |m| && StillOpen(m, o, n)
    ensures c < n ==> !Matches(m, o, c)
  {
    if o < c < n {
      assert Depth(m, o, c + 1) > 0;
    }
  }

  lemma NotTop(m: string, n: nat, stack: seq<nat>, o: nat)
    requires 0 < n <= |m| && m[n - 1] == '}' && StackIs(m, n - 1, stack) && StillOpen(m, o, n - 1)
    requires stack == [] || stack[|stack| - 1] != o
    ensures Depth(m, o, n) > 0
  {
    var j :| 0 <= j < |stack| && stack[j] == o;
    assert Depth(m, o, n) == |stack| - j - 1;
  }

  // ----- the pairing pass -----

  lemma {:induction false} ScanBlanks(m: string, n: nat, k: nat)
    requires n <= k <= |m| && forall i :: n <= i < k ==> m[i] == ' '
    ensures ScanTo(m, k) == ScanTo(m, n)
    decreases k
  {
    if k > n {
      ScanBlanks(m, n, k - 1);
    }
  }

  lemma Drop(m: string, at: nat, head: string, rest: string)
    requires at <= |m| && m[at..] == head + rest
    ensures at + |head| <= |m| && m[at + |head|..] == rest
  {
    assert |m[at..]| == |head| + |rest|;
    assert m[at + |head|..] == m[at..][|head|..];
  }

  lemma FirstAfter(m: string, at: nat, c: char, rest: string)
    requires at < |m| && m[at..] == [c] + rest
    ensures m[at] == c
  {
    assert m[at..][0] == m[at];
  }

  lemma BlankBytes(m: string, at: nat, n: nat, rest: string)
    requires at <= |m| && m[at..] == Blanks(n) + rest
    ensures at + n <= |m| && forall i :: at <= i < at + n ==> m[i] == ' '
  {
    assert |m[at..]| == n + |rest|;
    forall i | at <= i < at + n ensures m[i] == ' ' {
      assert m[at..][i - at] == m[i];
    }
  }

  method FindBracePairs(text: string) returns (pairs: map<nat, nat>)
    ensures pairs == ScanTo(Mask(text), |text|).pairs
    ensures forall o: nat, c: nat :: (o in pairs && pairs[o] == c) <==> Matches(Mask(text), o, c)
  {
    hide Mask, Plain, Token, Matches, Blanks, PairIff;
    var stack: seq<nat> := [];
    pairs := map[];
    var cursor: nat := 0;
    ghost var m := Mask(text);
    assert text[0..] == text && m[0..] == m;
    while cursor < |text|
      invariant cursor <= |text| && m[cursor..] == Mask(text[cursor..])
      invariant Scan(stack, pairs) == ScanTo(m, cursor)
    {
      MaskStep(text, cursor);
      if Plain(text[cursor..]) {
        Drop(m, cursor, [text[cursor]], Mask(text[cursor + 1..]));
        FirstAfter(m, cursor, text[cursor], Mask(text[cursor + 1..]));
        if text[cursor] == '{' {
          stack := stack + [cursor];
        } else if text[cursor] == '}' {
          if stack != [] {
            var open := stack[|stack| - 1];
            stack := stack[..|stack| - 1];
            pairs := pairs[open := cursor];
          }
        }
        cursor := cursor + 1;
      } else {
        var next := SkipToken(text, cursor);
        Drop(m, cursor, Blanks(next - cursor), Mask(text[next..]));
        BlankBytes(m, cursor, next - cursor, Mask(text[next..]));
        ScanBlanks(m, cursor, next);
        cursor := next;
      }
    }
    AllPairs(m, pairs);
  }

  lemma AllPairs(m: string, pairs: map<nat, nat>)
    requires pairs == ScanTo(m, |m|).pairs
    ensures forall o: nat, c: nat :: (o in pairs && pairs[o] == c) <==> Matches(m, o, c)
  {
    PairsExact(m, |m|);
    hide Matches, ScanTo;
    forall o: nat, c: nat ensures (o in pairs && pairs[o] == c) <==> Matches(m, o, c) {
      MatchInside(m, o, c);
      assert PairIff(m, |m|, pairs, o, c);
    }
  }

  lemma MatchInside(m: string, o: nat, c: nat)
    ensures Matches(m, o, c) ==> o < c < |m|
  {
  }

  // ----- the enclosing function body -----

  /** One past the last closing brace before `open`. */
  function HeaderStart(text: string, open: nat): (r: nat)
    requires open <= |text|
    ensures r <= open && (r > 0 ==> text[r - 1] == '}') && forall k :: r <= k < open ==> text[k] != '}'
  {
    if open == 0 || text[open - 1] == '}' then open else HeaderStart(text, open - 1)
  }

  predicate MentionsFn(header: string) {
    exists k: nat | k < |header| :: FnAt(header, k)
  }

  predicate FnAt(header: string, k: nat) {
    k + 3 <= |header| && header[k..k + 3] == "fn "
  }

  /** A header mentions a function when the keyword and a space occur in it. */
  lemma MentionsIff(header: string)
    ensures MentionsFn(header) <==> exists front, back :: header == front + "fn " + back
  {
    if MentionsFn(header) {
      var k: nat :| k < |header| && FnAt(header, k);
      assert header == header[..k] + "fn " + header[k + 3..];
    }
    if front, back :| header == front + "fn " + back {
      assert header[|front|..|front| + 3] == "fn ";
      assert FnAt(header, |front|);
    }
  }

  /** A pair of matching braces around the offset whose header declares a function. */
  predicate BodyAround(text: string, offset: nat, o: nat, c: nat) {
    Matches(Mask(text), o, c) && o < offset <= c && o <= |text| && MentionsFn(text[HeaderStart(text, o)..o])
  }

  datatype Body = Body(headerStart: nat, open: nat, close: nat)

  /** Candidates by falling position of the opening brace. */
  predicate Falling(cs: seq<(nat, nat)>) {
    forall i, j :: 0 <= i < j < |cs| ==> cs[i].0 > cs[j].0
  }

  method InsertFalling(cs: seq<(nat, nat)>, x: (nat, nat)) returns (r: seq<(nat, nat)>)
    requires Falling(cs) && forall i :: 0 <= i < |cs| ==> cs[i].0 != x.0
    ensures Falling(r) && forall y :: y in r <==> y in cs || y == x
  {
    var k := 0;
    while k < |cs| && cs[k].0 > x.0
      invariant k <= |cs| && forall i :: 0 <= i < k ==> cs[i].0 > x.0
    {
      k := k + 1;
    }
    r := cs[..k] + [x] + cs[k..];
    assert cs == cs[..k] + cs[k..];
  }

  method Candidates(pairs: map<nat, nat>, offset: nat) returns (cs: seq<(nat, nat)>)
    ensures Falling(cs)
    ensures forall o: nat, c: nat :: (o, c) in cs <==> o in pairs && pairs[o] == c && o < offset <= c
  {
    cs := [];
    var rest := pairs.Keys;
    while rest != {}
      invariant rest <= pairs.Keys && Falling(cs)
      invariant forall o: nat, c: nat :: (o, c) in cs <==> o in pairs && o !in rest && pairs[o] == c && o < offset <= c
    {
      var o :| o in rest;
      rest := rest - {o};
      if o < offset <= pairs[o] {
        cs := InsertFalling(cs, (o, pairs[o]));
      }
    }
  }

  /** The innermost pair that qualifies: every other one that qualifies lies around it. */
  method EnclosingFnBody(text: string, offset: nat) returns (r: Option<Body>)
    ensures r.None? <==> forall o: nat, c: nat :: !BodyAround(text, offset, o, c)
    ensures r.Some? ==>
              && BodyAround(text, offset, r.value.open, r.value.close)
              && r.value.headerStart == HeaderStart(text, r.value.open)
              && forall o: nat, c: nat :: BodyAround(text, offset, o, c) ==> o <= r.value.open && r.value.close <= c
  {
    hide Matches, Mask, MentionsFn;
    var pairs := FindBracePairs(text);
    var cs := Candidates(pairs, offset);
    MatchesInside(text);
    for i := 0 to |cs|
      invariant forall j :: 0 <= j < i ==> !BodyAround(text, offset, cs[j].0, cs[j].1)
    {
      var (open, close) := cs[i];
      assert (open, close) in cs;
      assert Matches(Mask(text), open, close);
      var start := HeaderStart(text, open);
      if MentionsFn(text[start..open]) {
        assert BodyAround(text, offset, open, close);
        forall o: nat, c: nat | BodyAround(text, offset, o, c) ensures o <= open && close <= c {
          assert (o, c) in cs;
          var j :| 0 <= j < |cs| && cs[j] == (o, c);
          if o < open {
            NestedOrDisjoint(Mask(text), o, c, open, close);
          }
        }
        return Some(Body(start, open, close));
      }
    }
    forall o: nat, c: nat | (o, c) in cs ensures !BodyAround(text, offset, o, c) {
      var j :| 0 <= j < |cs| && cs[j] == (o, c);
    }
    assert forall o: nat, c: nat :: BodyAround(text, offset, o, c) ==> (o, c) in cs;
    r := None;
  }

  lemma MatchesInside(text: string)
    ensures forall o: nat, c: nat :: Matches(Mask(text), o, c) ==> o < c < |text|
  {
  }

  // ----- the brace that is open at an offset -----

  /** The backward counter, before `index` with `depth` closing braces to skip. */
  function OpenBefore'(text: string, index: nat, depth: nat): Option<nat>
    requires index <= |text|
    decreases index
  {
    if index == 0 then None
    else if text[index - 1] == '}' then OpenBefore'(text, index - 1, depth + 1)
    else if text[index - 1] == '{' then if depth == 0 then Some(index - 1) else OpenBefore'(text, index - 1, depth - 1)
    else OpenBefore'(text, index - 1, depth)
  }

  /** Counting backward finds the entry of the forward stack that lies `depth` below the top. */
  lemma {:induction false} BackIsStack(text: string, index: nat, depth: nat)
    requires index <= |text|
    ensures var stack := ScanTo(text, index).stack;
            OpenBefore'(text, index, depth) == if depth < |stack| then Some(stack[|stack| - 1 - depth]) else None
    decreases index
  {
    hide *;
    if index == 0 {
      NoneBefore(text, depth);
    } else {
      ScanToStep(text, index);
      OpenBeforeStep(text, index, depth);
      var c := text[index - 1];
      BackIsStack(text, index - 1, if c == '}' then depth + 1 else if c == '{' && depth > 0 then depth - 1 else depth);
    }
  }

  lemma NoneBefore(text: string, depth: nat)
    ensures ScanTo(text, 0).stack == [] && OpenBefore'(text, 0, depth) == None
  {
  }

  lemma OpenBeforeStep(text: string, index: nat, depth: nat)
    requires 0 < index <= |text|
    ensures var c := text[index - 1];
            OpenBefore'(text, index, depth) ==
            if c == '{' && depth == 0 then Some(index - 1)
            else OpenBefore'(text, index - 1, if c == '}' then depth + 1 else if c == '{' then depth - 1 else depth)
  {
  }

  /** The backward search returns the innermost brace that is still open, if any; on a text without strings
      and comments that is a brace of the code. */
  method StructInitOpen(text: string, position: nat) returns (r: Option<nat>)
    ensures var offset := if position < |text| then position else |text|;
            && (r.None? <==> forall o: nat :: !StillOpen(text, o, offset))
            && (r.Some? ==>
                  StillOpen(text, r.value, offset)
                  && forall o: nat :: StillOpen(text, o, offset) ==> o <= r.value)
            && (Mask(text) == text ==> r == Top(ScanTo(Mask(text), offset).stack))
  {
    var offset := if position < |text| then position else |text|;
    BackIsStack(text, offset, 0);
    TopIsInnermost(text, offset);
    hide StillOpen, ScanTo, Mask;
    var depth: nat := 0;
    var index: nat := offset;
    while index != 0
      invariant index <= |text| && OpenBefore'(text, index, depth) == OpenBefore'(text, offset, 0)
    {
      index := index - 1;
      if text[index] == '}' {
        depth := depth + 1;
      } else if text[index] == '{' {
        if depth == 0 {
          return Some(index);
        }
        depth := depth - 1;
      }
    }
    r := None;
  }

  lemma TopIsInnermost(text: string, n: nat)
    requires n <= |text|
    ensures var top := Top(ScanTo(text, n).stack);
            && (top.None? ==> forall o: nat :: !StillOpen(text, o, n))
            && (top.Some? ==>
                  StillOpen(text, top.value, n)
                  && forall o: nat :: StillOpen(text, o, n) ==> o <= top.value)
  {
    StackExact(text, n);
    hide ScanTo, StillOpen;
  }

  function Top(stack: seq<nat>): Option<nat> {
    if stack == [] then None else Some(stack[|stack| - 1])
  }
}
