/**
 Closing the brackets that are still open at the cursor, so that an unfinished text parses.
 */
module BracketRepair {
  import opened TextScan
  import opened Wrappers

  // ----- bracket stacks -----

  function Closer(c: char): char
    requires c in "([{"
  {
    if c == '(' then ')' else if c == '[' then ']' else '}'
  }

  /** The scanner's stack of awaited closers: any closer pops, whatever its kind. */
  function Push(stack: string, c: char): string {
    if c in "([{" then stack + [Closer(c)]
    else if c in ")]}" && stack != "" then stack[..|stack| - 1]
    else stack
  }

  function Loose(stack: string, m: string): string
    decreases |m|
  {
    if m == "" then stack else Loose(Push(stack, m[0]), m[1..])
  }

  /** The same with the kinds checked: every closer must be the one that is awaited. */
  function Strict(stack: string, m: string): Option<string>
    decreases |m|
  {
    if m == "" then Some(stack)
    else if m[0] in ")]}" then
      if stack != "" && stack[|stack| - 1] == m[0] then Strict(stack[..|stack| - 1], m[1..]) else None
    else Strict(Push(stack, m[0]), m[1..])
  }

  /** Every bracket of the text's code is closed by one of its kind. */
  predicate Balanced(text: string) {
    Strict("", Mask(text)) == Some("")
  }

  // ----- balance by a grammar -----

  datatype Forest = Empty | Other(c: char, rest: Forest) | Bracket(open: char, inside: Forest, rest: Forest)

  predicate Proper(f: Forest) {
    match f
    case Empty => true
    case Other(c, rest) => c !in "([{)]}" && Proper(rest)
    case Bracket(open, inside, rest) => open in "([{" && Proper(inside) && Proper(rest)
  }

  function Text(f: Forest): string
    requires Proper(f)
  {
    match f
    case Empty => ""
    case Other(c, rest) => [c] + Text(rest)
    case Bracket(open, inside, rest) => [open] + Text(inside) + [Closer(open)] + Text(rest)
  }

  lemma OfOneKind(c: char)
    requires c in "([{"
    ensures [c, Closer(c)] in {"()", "[]", "{}"}
  {
  }

  lemma {:induction false} StrictAppend(stack: string, a: string, b: string)
    ensures Strict(stack, a + b) == (var s := Strict(stack, a); if s.None? then None else Strict(s.value, b))
    decreases |a|
  {
    if a == "" {
      assert a + b == b;
    } else {
      assert (a + b)[1..] == a[1..] + b;
      if a[0] in ")]}" {
        if stack != "" {
          StrictAppend(stack[..|stack| - 1], a[1..], b);
        }
      } else {
        StrictAppend(Push(stack, a[0]), a[1..], b);
      }
    }
  }

  lemma StrictOne(stack: string, c: char)
    ensures Strict(stack, [c]) == if c !in ")]}" then Some(Push(stack, c))
              else if stack != "" && stack[|stack| - 1] == c then Some(stack[..|stack| - 1]) else None
  {
    assert [c][1..] == "";
  }

  lemma {:induction false} ForestBalanced(f: Forest, stack: string)
    requires Proper(f)
    ensures Strict(stack, Text(f)) == Some(stack)
    decreases f
  {
    match f
    case Empty =>
    case Other(c, rest) =>
      StrictAppend(stack, [c], Text(rest));
      StrictOne(stack, c);
      ForestBalanced(rest, stack);
    case Bracket(open, inside, rest) =>
      var awaited := stack + [Closer(open)];
      StrictAppend(stack, [open] + Text(inside) + [Closer(open)], Text(rest));
      StrictAppend(stack, [open] + Text(inside), [Closer(open)]);
      StrictAppend(stack, [open], Text(inside));
      StrictOne(stack, open);
      StrictOne(awaited, Closer(open));
      ForestBalanced(inside, awaited);
      assert awaited[..|stack|] == stack;
      ForestBalanced(rest, stack);
  }

  predicate AllProper(fs: seq<Forest>) {
    forall i :: 0 <= i < |fs| ==> Proper(fs[i])
  }

  /** The text of open levels, innermost first, each but the outermost closed by the awaited closer. */
  function Levels(fs: seq<Forest>, stack: string): string
    requires |fs| == |stack| + 1 && AllProper(fs)
    decreases |stack|
  {
    var n := |stack|;
    if n == 0 then Text(fs[0]) else Text(fs[n]) + [stack[n - 1]] + Levels(fs[..n], stack[..n - 1])
  }

  lemma {:induction false} Grow(stack: string, m: string) returns (fs: seq<Forest>)
    requires Strict(stack, m) == Some("") && forall i :: 0 <= i < |stack| ==> stack[i] in ")]}"
    ensures |fs| == |stack| + 1 && AllProper(fs) && Levels(fs, stack) == m
    decreases |m|
  {
    hide Levels, Text;
    var n := |stack|;
    if m == "" {
      fs := [Empty];
      NoLevels();
    } else if m[0] in ")]}" {
      var gs := Grow(stack[..n - 1], m[1..]);
      fs := gs + [Empty];
      Close(gs, stack);
      assert m == [m[0]] + m[1..];
    } else if m[0] in "([{" {
      var gs := Grow(Push(stack, m[0]), m[1..]);
      Wrap(gs, stack, m[0]);
      fs := gs[..n] + [Bracket(m[0], gs[n + 1], gs[n])];
      assert m == [m[0]] + m[1..];
    } else {
      var gs := Grow(stack, m[1..]);
      fs := gs[..n] + [Other(m[0], gs[n])];
      OtherText(m[0], gs[n]);
      Swap(gs, fs, stack, [m[0]]);
      assert m == [m[0]] + m[1..];
    }
  }

  lemma NoLevels()
    ensures Levels([Empty], "") == ""
  {
  }

  lemma OtherText(c: char, f: Forest)
    requires Proper(f) && c !in "([{)]}"
    ensures Proper(Other(c, f)) && Text(Other(c, f)) == [c] + Text(f)
  {
  }

  lemma Close(gs: seq<Forest>, stack: string)
    requires stack != "" && |gs| == |stack| && AllProper(gs)
    ensures AllProper(gs + [Empty])
    ensures Levels(gs + [Empty], stack) == [stack[|stack| - 1]] + Levels(gs, stack[..|stack| - 1])
  {
    assert (gs + [Empty])[..|stack|] == gs;
  }

  lemma Swap(gs: seq<Forest>, fs: seq<Forest>, stack: string, head: string)
    requires |gs| == |fs| == |stack| + 1 && AllProper(gs) && AllProper(fs) && gs[..|stack|] == fs[..|stack|]
    requires Text(fs[|stack|]) == head + Text(gs[|stack|])
    ensures Levels(fs, stack) == head + Levels(gs, stack)
  {
  }

  lemma Wrap(gs: seq<Forest>, stack: string, open: char)
    requires |gs| == |stack| + 2 && AllProper(gs) && open in "([{"
    ensures var fs := gs[..|stack|] + [Bracket(open, gs[|stack| + 1], gs[|stack|])];
            AllProper(fs) && Levels(fs, stack) == [open] + Levels(gs, Push(stack, open))
  {
    var n := |stack|;
    var fs := gs[..n] + [Bracket(open, gs[n + 1], gs[n])];
    var hs := gs[..n + 1];
    assert Push(stack, open)[..n] == stack && hs[..n] == fs[..n];
    Swap(hs, fs, stack, [open] + Text(gs[n + 1]) + [Closer(open)]);
  }

  /** The stack check accepts exactly the texts of the bracket grammar. */
  lemma BalancedIff(text: string)
    ensures Balanced(text) <==> exists f :: Proper(f) && Text(f) == Mask(text)
  {
    if Balanced(text) {
      var fs := Grow("", Mask(text));
      assert Text(fs[0]) == Mask(text);
    }
    if f :| Proper(f) && Text(f) == Mask(text) {
      ForestBalanced(f, "");
    }
  }

  // ----- the repair -----

  predicate IsSpace(c: char) {
    c == ' ' || (9 as char <= c && c <= 13 as char)
  }

  lemma SpacesAre(c: char)
    ensures IsSpace(c) <==> c in {' ', '\t', '\n', '\r', 11 as char, 12 as char}
  {
  }

  function TrimEnd(s: string): string {
    if s != "" && IsSpace(s[|s| - 1]) then TrimEnd(s[..|s| - 1]) else s
  }

  predicate EndsIn(s: string, cs: string) {
    s != "" && s[|s| - 1] in cs
  }

  /** The awaited closers, innermost first, with a semicolon beside the first one where it is asked for. */
  function Closing(stack: string, before: string, semi: bool): string {
    if stack == "" then ""
    else
      var top := stack[|stack| - 1];
      (if semi && top == '}' && before != "" && !EndsIn(before, ";{}") then ";" else "")
      + [top] + (if semi && (top == ')' || top == ']') then ";" else "")
      + Closers(stack[..|stack| - 1])
  }

  function Closers(stack: string): string {
    if stack == "" then "" else [stack[|stack| - 1]] + Closers(stack[..|stack| - 1])
  }

  function Before(text: string, offset: nat): string
    requires offset <= |text|
  {
    TrimEnd(text[..offset])
  }

  function Repaired(text: string, offset: nat, semi: bool): Option<string>
    requires offset <= |text|
  {
    var stack := Loose("", Mask(text));
    var before := Before(text, offset);
    if stack == "" then
      if !semi || before == "" || EndsIn(before, ";{}(,[") then None else Some(text[..offset] + ";" + text[offset..])
    else Some(text[..offset] + Closing(stack, before, semi) + text[offset..])
  }

  /** The scanning loop: the closers that are awaited at the end of the text. */
  method AwaitedClosers(text: string) returns (stack: string)
    ensures stack == Loose("", Mask(text))
  {
    hide Mask, Token, Plain, Loose;
    stack := "";
    var cursor: nat := 0;
    assert text[0..] == text;
    while cursor < |text|
      invariant cursor <= |text| && Loose(stack, Mask(text[cursor..])) == Loose("", Mask(text))
    {
      MaskStep(text, cursor);
      if Plain(text[cursor..]) {
        LooseByte(stack, text[cursor], Mask(text[cursor + 1..]));
        var c := text[cursor];
        if c == '(' {
          stack := stack + ")";
        } else if c == '[' {
          stack := stack + "]";
        } else if c == '{' {
          stack := stack + "}";
        } else if (c == ')' || c == ']' || c == '}') && stack != "" {
          stack := stack[..|stack| - 1];
        }
        cursor := cursor + 1;
      } else {
        var next := SkipToken(text, cursor);
        LooseBlanks(stack, next - cursor, Mask(text[next..]));
        cursor := next;
      }
    }
    LooseEnd(stack, text[cursor..]);
  }

  // ----- which brackets are open, and what a repair inserts, by positions -----

  /** Opening minus closing brackets of any kind from `o` up to `k`. */
  function Depth(m: string, o: nat, k: nat): int
    requires k <= |m|
    decreases k
  {
    if k <= o then 0 else Depth(m, o, k - 1) + if m[k - 1] in "([{" then 1 else if m[k - 1] in ")]}" then -1 else 0
  }

  /** The bracket at `o` is open and was not closed before `n`. */
  predicate StillOpen(m: string, o: nat, n: nat)
    requires n <= |m|
  {
    o < n && m[o] in "([{" && forall k :: o < k <= n ==> Depth(m, o, k) > 0
  }

  /** The closers of the brackets before `k` that are open at `n`, innermost first. */
  function InsideOut(m: string, n: nat, k: nat): string
    requires k <= n <= |m|
    decreases k
  {
    if k == 0 then ""
    else (if StillOpen(m, k - 1, n) then [Closer(m[k - 1])] else "") + InsideOut(m, n, k - 1)
  }

  lemma OpenNext(m: string, o: nat, n: nat)
    requires o <= n < |m|
    ensures StillOpen(m, o, n + 1) <==>
            if o == n then m[n] in "([{" else StillOpen(m, o, n) && Depth(m, o, n + 1) > 0
    ensures Depth(m, o, n + 1) == Depth(m, o, n) + if m[n] in "([{" then 1 else if m[n] in ")]}" then -1 else 0
    ensures o == n ==> Depth(m, o, n) == 0
  {
    assert Depth(m, n, n) == 0;
    if StillOpen(m, o, n + 1) {
      assert Depth(m, o, n + 1) > 0;
    }
    hide Depth;
  }

  lemma {:induction false} SameInside(m: string, n: nat, p: nat, k: nat)
    requires k <= n <= |m| && k <= p <= |m|
    requires forall o: nat :: o < k ==> (StillOpen(m, o, n) <==> StillOpen(m, o, p))
    ensures InsideOut(m, n, k) == InsideOut(m, p, k)
    decreases k
  {
    hide StillOpen;
    if k > 0 {
      assert StillOpen(m, k - 1, n) <==> StillOpen(m, k - 1, p);
      SameInside(m, n, p, k - 1);
    }
  }

  /** An open bracket is as deep as there are open brackets from it on. */
  ghost predicate Counted(m: string, n: nat)
    requires n <= |m|
  {
    forall o: nat :: o < n && StillOpen(m, o, n) ==> Depth(m, o, n) == |InsideOut(m, n, n)| - |InsideOut(m, n, o)|
  }

  lemma {:induction false} InsideGrows(m: string, n: nat, j: nat, k: nat)
    requires j <= k <= n <= |m|
    ensures |InsideOut(m, n, j)| <= |InsideOut(m, n, k)|
    ensures StillOpen(m, j, n) && j < k ==> |InsideOut(m, n, j)| < |InsideOut(m, n, k)|
    decreases k
  {
    hide StillOpen;
    if j < k {
      InsideGrows(m, n, j, k - 1);
    }
  }

  /** A closer takes away the innermost open bracket. */
  lemma {:induction false} DropInnermost(m: string, p: nat, k: nat)
    requires p < |m| && m[p] in ")]}" && Counted(m, p) && k <= p && |InsideOut(m, p, k)| == |InsideOut(m, p, p)|
    ensures InsideOut(m, p + 1, k) == if InsideOut(m, p, k) == "" then "" else InsideOut(m, p, k)[1..]
    decreases k
  {
    hide StillOpen, Depth;
    if k > 0 {
      OpenNext(m, k - 1, p);
      InsideGrows(m, p, k - 1, k);
      if StillOpen(m, k - 1, p) {
        forall o: nat | o < k - 1 ensures StillOpen(m, o, p + 1) <==> StillOpen(m, o, p) {
          OpenNext(m, o, p);
          InsideGrows(m, p, o, k - 1);
        }
        SameInside(m, p + 1, p, k - 1);
      } else {
        DropInnermost(m, p, k - 1);
      }
    }
  }

  lemma InsideNext(m: string, p: nat)
    requires p < |m| && Counted(m, p)
    ensures InsideOut(m, p + 1, p + 1) ==
            var before := InsideOut(m, p, p);
            if m[p] in "([{" then [Closer(m[p])] + before
            else if m[p] in ")]}" && before != "" then before[1..] else before
  {
    hide StillOpen, Depth, Counted;
    OpenNext(m, p, p);
    if m[p] in ")]}" {
      DropInnermost(m, p, p);
    } else {
      StaysOpen(m, p);
      SameInside(m, p + 1, p, p);
    }
  }

  lemma StaysOpen(m: string, p: nat)
    requires p < |m| && m[p] !in ")]}"
    ensures forall o: nat :: o < p ==> (StillOpen(m, o, p + 1) <==> StillOpen(m, o, p))
  {
    forall o: nat | o < p ensures StillOpen(m, o, p + 1) <==> StillOpen(m, o, p) {
      OpenNext(m, o, p);
    }
  }

  lemma CountNext(m: string, p: nat, o: nat)
    requires o <= p < |m| && Counted(m, p) && StillOpen(m, o, p + 1)
    ensures Depth(m, o, p + 1) == |InsideOut(m, p + 1, p + 1)| - |InsideOut(m, p + 1, o)|
  {
    hide StillOpen, Depth;
    InsideNext(m, p);
    OpenNext(m, o, p);
    forall x: nat | x < o ensures StillOpen(m, x, p + 1) <==> StillOpen(m, x, p) {
      OpenNext(m, x, p);
      if o < p {
        InsideGrows(m, p, x, o);
      } else if StillOpen(m, x, p) {
        InsideGrows(m, p, x, p);
      }
    }
    SameInside(m, p + 1, p, o);
    InsideGrows(m, p, o, p);
  }

  /** The scanner's stack holds the closers of exactly the brackets that are open, by depth. */
  lemma {:induction false} LooseInsideOut(m: string, n: nat)
    requires n <= |m|
    ensures Closers(Loose("", m[..n])) == InsideOut(m, n, n) && Counted(m, n)
    decreases n
  {
    hide StillOpen, Depth, Loose;
    if n == 0 {
      NothingScanned(m);
    } else {
      var p := n - 1;
      LooseInsideOut(m, p);
      InsideNext(m, p);
      assert m[..n] == m[..p] + [m[p]];
      LooseAppend("", m[..p], [m[p]]);
      LooseOne(Loose("", m[..p]), m[p]);
      ClosersPush(Loose("", m[..p]), m[p]);
      forall o: nat | o < n && StillOpen(m, o, n)
        ensures Depth(m, o, n) == |InsideOut(m, n, n)| - |InsideOut(m, n, o)|
      {
        CountNext(m, p, o);
      }
    }
  }

  lemma NothingScanned(m: string)
    ensures Closers(Loose("", m[..0])) == InsideOut(m, 0, 0) && Counted(m, 0)
  {
  }

  lemma LooseOne(stack: string, c: char)
    ensures Loose(stack, [c]) == Push(stack, c)
  {
    assert [c][1..] == "";
  }

  lemma ClosersPush(stack: string, c: char)
    ensures Closers(Push(stack, c)) ==
            if c in "([{" then [Closer(c)] + Closers(stack)
            else if c in ")]}" && Closers(stack) != "" then Closers(stack)[1..] else Closers(stack)
  {
    if c in "([{" {
      assert (stack + [Closer(c)])[..|stack|] == stack;
    }
  }

  /** Byte `j` is the last one before the offset that is not white space. */
  predicate LastInk(text: string, offset: nat, j: nat)
    requires offset <= |text|
  {
    j < offset && !IsSpace(text[j]) && forall k :: j < k < offset ==> IsSpace(text[k])
  }

  ghost predicate InkOutside(text: string, offset: nat, cs: string)
    requires offset <= |text|
  {
    exists j: nat :: LastInk(text, offset, j) && text[j] !in cs
  }

  /** What must be inserted at the offset, if anything.  Nothing is open: one semicolon where it is asked for and
      the text before the offset ends in something other than the bytes after which none belongs.  Something
      is open: the closers from the inside out, and where it is asked for one semicolon, after the first closer
      if that is round or square, before it if it is curly and a statement may end there. */
  ghost predicate Inserts(text: string, offset: nat, semi: bool, r: Option<string>)
    requires offset <= |text|
  {
    var m := Mask(text);
    && |m| == |text|
    && if forall o: nat :: !StillOpen(m, o, |m|) then
         if semi && InkOutside(text, offset, ";{}(,[") then r == Some(text[..offset] + ";" + text[offset..])
         else r == None
       else
         exists i: nat ::
           && Innermost(m, i)
           && var c, rest := Closer(m[i]), InsideOut(m, |m|, i);
              var ins := if !semi then [c] + rest
                         else if c != '}' then [c] + ";" + rest
                         else if InkOutside(text, offset, ";{}") then ";" + [c] + rest
                         else [c] + rest;
              r == Some(text[..offset] + ins + text[offset..])
  }

  predicate Innermost(m: string, i: nat) {
    StillOpen(m, i, |m|) && forall o: nat :: i < o < |m| ==> !StillOpen(m, o, |m|)
  }

  lemma {:induction false} InsideEmpty(m: string, n: nat, k: nat)
    requires k <= n <= |m|
    ensures InsideOut(m, n, k) == "" <==> forall o: nat :: o < k ==> !StillOpen(m, o, n)
    decreases k
  {
    hide StillOpen;
    if k > 0 {
      InsideEmpty(m, n, k - 1);
      if InsideOut(m, n, k) == "" {
        assert !StillOpen(m, k - 1, n);
      }
    }
  }

  lemma {:induction false} FindInnermost(m: string, k: nat) returns (i: nat)
    requires k <= |m| && InsideOut(m, |m|, k) != "" && forall o: nat :: k <= o < |m| ==> !StillOpen(m, o, |m|)
    ensures Innermost(m, i) && i < k && InsideOut(m, |m|, k) == [Closer(m[i])] + InsideOut(m, |m|, i)
    decreases k
  {
    hide StillOpen;
    if StillOpen(m, k - 1, |m|) {
      i := k - 1;
    } else {
      i := FindInnermost(m, k - 1);
    }
  }

  lemma {:induction false} TrimmedAt(text: string, offset: nat, n: nat, cs: string)
    requires n <= offset <= |text| && forall k :: n <= k < offset ==> IsSpace(text[k])
    ensures var b := TrimEnd(text[..n]); b != "" && !EndsIn(b, cs) <==> InkOutside(text, offset, cs)
    decreases n
  {
    hide IsSpace;
    if n > 0 {
      assert text[..n][..n - 1] == text[..n - 1];
      if IsSpace(text[n - 1]) {
        TrimmedAt(text, offset, n - 1, cs);
      } else {
        assert LastInk(text, offset, n - 1);
        assert forall j: nat :: LastInk(text, offset, j) ==> j == n - 1;
      }
    }
  }

  lemma RepairInserts(text: string, offset: nat, semi: bool)
    requires offset <= |text|
    ensures Inserts(text, offset, semi, Repaired(text, offset, semi))
  {
    var m := Mask(text);
    var stack := Loose("", m);
    assert m[..|m|] == m;
    LooseInsideOut(m, |m|);
    InsideEmpty(m, |m|, |m|);
    TrimmedAt(text, offset, offset, ";{}(,[");
    TrimmedAt(text, offset, offset, ";{}");
    hide Mask, Loose, StillOpen, TrimEnd, EndsIn, InkOutside, InsideOut, Closers;
    ClosersEmpty(stack);
    if stack != "" {
      var i := FindInnermost(m, |m|);
      ClosingOpen(stack, m[i], InsideOut(m, |m|, i), Before(text, offset), semi);
    }
  }

  lemma ClosersEmpty(stack: string)
    ensures Closers(stack) == "" <==> stack == ""
  {
  }

  lemma ClosingOpen(stack: string, open: char, rest: string, before: string, semi: bool)
    requires stack != "" && open in "([{" && Closers(stack) == [Closer(open)] + rest
    ensures var c := Closer(open);
            Closing(stack, before, semi) ==
            if !semi then [c] + rest
            else if c != '}' then [c] + ";" + rest
            else if before != "" && !EndsIn(before, ";{}") then ";" + [c] + rest
            else [c] + rest
  {
    FirstCloser(stack, Closer(open), rest);
    hide Closers, EndsIn;
  }

  lemma FirstCloser(stack: string, c: char, rest: string)
    requires stack != "" && Closers(stack) == [c] + rest
    ensures stack[|stack| - 1] == c && Closers(stack[..|stack| - 1]) == rest
  {
    assert Closers(stack)[0] == stack[|stack| - 1] && Closers(stack)[1..] == Closers(stack[..|stack| - 1]);
  }

  method RepairForPlain(text: string, position: nat, semi: bool) returns (r: Option<string>)
    ensures r == Repaired(text, if position < |text| then position else |text|, semi)
    ensures Inserts(text, if position < |text| then position else |text|, semi, r)
  {
    hide Mask, Loose, TrimEnd, Closing, Inserts;
    RepairInserts(text, if position < |text| then position else |text|, semi);
    var offset := if position < |text| then position else |text|;
    var stack := AwaitedClosers(text);
    var before := TrimEnd(text[..offset]);
    if stack == "" {
      if !semi || before == "" || EndsIn(before, ";{}(,[") {
        return None;
      }
      return Some(text[..offset] + ";" + text[offset..]);
    }
    var repaired := AppendClosers(text[..offset], stack, before, semi);
    r := Some(repaired + text[offset..]);
  }

  /** The building loop, from the innermost closer outwards. */
  method AppendClosers(head: string, awaited: string, before: string, semi: bool) returns (repaired: string)
    ensures repaired == head + Closing(awaited, before, semi)
  {
    hide Closing, Closers, EndsIn;
    repaired := head;
    var stack := awaited;
    var index := 0;
    while stack != ""
      invariant index == |awaited| - |stack|
      invariant repaired + (if index == 0 then Closing(stack, before, semi) else Closers(stack)) ==
                  head + Closing(awaited, before, semi)
      decreases |stack|
    {
      var close := stack[|stack| - 1];
      ClosingStep(repaired, stack, before, semi);
      if semi && index == 0 && close == '}' && before != "" && !EndsIn(before, ";{}") {
        repaired := repaired + ";";
      }
      repaired := repaired + [close];
      if semi && index == 0 && (close == ')' || close == ']') {
        repaired := repaired + ";";
      }
      stack := stack[..|stack| - 1];
      index := index + 1;
    }
    NoClosers(repaired, before, semi);
  }

  lemma ClosingStep(head: string, stack: string, before: string, semi: bool)
    requires stack != ""
    ensures var top, rest := stack[|stack| - 1], stack[..|stack| - 1];
            var a := if semi && top == '}' && before != "" && !EndsIn(before, ";{}") then head + ";" else head;
            var b := if semi && (top == ')' || top == ']') then a + [top] + ";" else a + [top];
            head + Closing(stack, before, semi) == b + Closers(rest)
    ensures head + Closers(stack) == head + [stack[|stack| - 1]] + Closers(stack[..|stack| - 1])
  {
    var top, rest := stack[|stack| - 1], stack[..|stack| - 1];
    var pre := semi && top == '}' && before != "" && !EndsIn(before, ";{}");
    var post := semi && (top == ')' || top == ']');
    Regroup(head, if pre then ";" else "", [top], if post then ";" else "", Closers(rest));
    Regroup(head, "", [top], "", Closers(rest));
    hide EndsIn;
  }

  lemma Regroup(h: string, a: string, b: string, c: string, r: string)
    ensures h + (a + b + c + r) == h + a + b + c + r && h + "" == h && h + b + "" == h + b && h + (b + r) == h + b + r
    ensures h + a + b + "" == h + a + b
  {
  }

  lemma NoClosers(head: string, before: string, semi: bool)
    ensures head + Closing("", before, semi) == head && head + Closers("") == head
  {
  }

  lemma LooseByte(stack: string, c: char, m: string)
    ensures Loose(stack, [c] + m) == Loose(Push(stack, c), m)
  {
    assert ([c] + m)[1..] == m;
  }

  lemma {:induction false} LooseBlanks(stack: string, n: nat, m: string)
    ensures Loose(stack, Blanks(n) + m) == Loose(stack, m)
  {
    if n > 0 {
      assert Blanks(n) + m == [' '] + (Blanks(n - 1) + m);
      LooseByte(stack, ' ', Blanks(n - 1) + m);
      LooseBlanks(stack, n - 1, m);
    } else {
      assert Blanks(n) + m == m;
    }
  }

  lemma LooseEnd(stack: string, rest: string)
    requires rest == ""
    ensures Loose(stack, Mask(rest)) == stack
  {
  }

  // ----- what the repair achieves -----

  lemma {:induction false} StrictIsLoose(stack: string, m: string)
    requires Strict(stack, m).Some?
    ensures Strict(stack, m).value == Loose(stack, m)
    decreases |m|
  {
    if m != "" {
      StrictIsLoose(Push(stack, m[0]), m[1..]);
    }
  }

  /** A balanced stretch does not touch what is below it on the stack. */
  lemma {:induction false} StrictAbove(low: string, stack: string, m: string)
    requires Strict(stack, m).Some?
    ensures Strict(low + stack, m) == Some(low + Strict(stack, m).value)
    decreases |m|
  {
    if m != "" {
      var both := low + stack;
      if m[0] in ")]}" {
        assert both[..|both| - 1] == low + stack[..|stack| - 1];
        StrictAbove(low, stack[..|stack| - 1], m[1..]);
      } else {
        assert Push(both, m[0]) == low + Push(stack, m[0]);
        StrictAbove(low, Push(stack, m[0]), m[1..]);
      }
    }
  }

  predicate Awaited(stack: string) {
    forall i :: 0 <= i < |stack| ==> stack[i] in ")]}"
  }

  lemma {:induction false} StrictAwaits(stack: string, m: string)
    requires Awaited(stack) && Strict(stack, m).Some?
    ensures Awaited(Strict(stack, m).value)
    decreases |m|
  {
    if m != "" {
      if m[0] in ")]}" {
        StrictAwaits(stack[..|stack| - 1], m[1..]);
      } else {
        StrictAwaits(Push(stack, m[0]), m[1..]);
      }
    }
  }

  lemma {:induction false} ClosersClose(stack: string)
    requires Awaited(stack)
    ensures Strict(stack, Closers(stack)) == Some("") && Inert(Closers(stack))
  {
    if stack != "" {
      var rest := stack[..|stack| - 1];
      assert Closers(stack)[1..] == Closers(rest);
      ClosersClose(rest);
    }
  }

  lemma Semicolon(stack: string, on: bool)
    ensures Strict(stack, if on then ";" else "") == Some(stack)
  {
    assert ";"[1..] == "";
  }

  lemma ClosingCloses(stack: string, before: string, semi: bool)
    requires Awaited(stack)
    ensures Strict(stack, Closing(stack, before, semi)) == Some("") && Inert(Closing(stack, before, semi))
  {
    if stack != "" {
      var top, rest := stack[|stack| - 1], stack[..|stack| - 1];
      var pre, post := semi && top == '}' && before != "" && !EndsIn(before, ";{}"), semi && (top == ')' || top == ']');
      var a, b := if pre then ";" else "", if post then ";" else "";
      ClosersClose(rest);
      Semicolon(stack, pre);
      Semicolon(rest, post);
      StrictOne(stack, top);
      StrictAppend(stack, a + [top] + b, Closers(rest));
      StrictAppend(stack, a + [top], b);
      StrictAppend(stack, a, [top]);
    }
  }

  /** The bytes that a repair inserts at the offset. */
  function Insertion(text: string, offset: nat, semi: bool): string
    requires offset <= |text|
  {
    var stack := Loose("", Mask(text));
    if stack == "" then ";" else Closing(stack, Before(text, offset), semi)
  }

  /** When the text before the offset is correctly bracketed, the text after it is balanced on its own and the
      offset is in code, the repaired text is balanced, its code differs from the given one by the insertion
      alone, and a second repair has nothing left to close. */
  lemma RepairBalances(text: string, offset: nat, semi: bool)
    requires offset <= |text| && CodeAt(text, offset)
    requires Strict("", Mask(text)[..offset]).Some? && Balanced(text[offset..])
    ensures var r := Repaired(text, offset, semi);
            && (r.Some? ==>
                  Balanced(r.value)
                  && r.value == text[..offset] + Insertion(text, offset, semi) + text[offset..])
            && (r.Some? ==> forall o: nat :: o <= |r.value| ==> Repaired(r.value, o, false) == None)
            && (!semi ==> (r == None <==> Balanced(text)))
  {
    hide Mask, Loose, Strict, Closing, CodeAt, TrimEnd, Inert;
    var p, q := text[..offset], text[offset..];
    assert p + q == text;
    MaskSplice(p, "", q) by {
      NothingInert();
    }
    var m := Mask(text)[..offset];
    var s := Strict("", m).value;
    assert Mask(text) == m + Mask(q);
    StrictAppend("", m, Mask(q));
    StrictAbove(s, "", Mask(q));
    assert s + "" == s;
    StrictIsLoose("", Mask(text));
    StrictAwaits("", m);
    var ins := Insertion(text, offset, semi);
    if s == "" {
      Semicolon("", true);
      SemicolonInert();
    } else {
      ClosingCloses(s, Before(text, offset), semi);
    }
    var t := p + ins + q;
    MaskSplice(p, ins, q);
    StrictAppend("", m + ins, Mask(q));
    StrictAppend("", m, ins);
    assert Balanced(t);
    StrictIsLoose("", Mask(t));
  }

  lemma NothingInert()
    ensures Inert("")
  {
  }

  lemma SemicolonInert()
    ensures Inert(";")
  {
  }

  lemma {:induction false} LooseAppend(stack: string, a: string, b: string)
    ensures Loose(stack, a + b) == Loose(Loose(stack, a), b)
    decreases |a|
  {
    if a == "" {
      assert a + b == b;
    } else {
      assert (a + b)[1..] == a[1..] + b;
      LooseAppend(Push(stack, a[0]), a[1..], b);
    }
  }

  /** Blanks in between change neither stack. */
  lemma BlanksBetween(a: string, n: nat, b: string)
    ensures Loose("", a + Blanks(n) + b) == Loose("", a + b)
    ensures Strict("", a + Blanks(n) + b) == Strict("", a + b)
  {
    hide Loose, Strict;
    LooseAppend("", a + Blanks(n), b);
    LooseAppend("", a, Blanks(n));
    LooseAppend("", a, b);
    assert Blanks(n) + "" == Blanks(n);
    LooseBlanks(Loose("", a), n, "");
    NothingLeft(Loose("", a));
    StrictAppend("", a + Blanks(n), b);
    StrictAppend("", a, Blanks(n));
    StrictAppend("", a, b);
    if Strict("", a).Some? {
      StrictBlanks(Strict("", a).value, n);
    }
  }

  lemma NothingLeft(stack: string)
    ensures Loose(stack, "") == stack && Strict(stack, "") == Some(stack)
  {
  }

  lemma {:induction false} LooseAwaits(stack: string, m: string)
    requires Awaited(stack)
    ensures Awaited(Loose(stack, m))
    decreases |m|
  {
    if m != "" {
      LooseAwaits(Push(stack, m[0]), m[1..]);
    }
  }

  lemma {:induction false} ClosersQuiet(stack: string)
    requires Awaited(stack)
    ensures Quiet(Closers(stack))
  {
    if stack != "" {
      ClosersQuiet(stack[..|stack| - 1]);
    }
  }

  lemma InsertionQuiet(text: string, offset: nat, semi: bool)
    requires offset <= |text|
    ensures Quiet(Insertion(text, offset, semi))
  {
    var stack := Loose("", Mask(text));
    LooseAwaits("", Mask(text));
    hide *;
    InsertionIs(text, offset, semi);
    if stack == "" {
      SemiQuiet();
    } else {
      AwaitedBelow(stack);
      ClosersQuiet(stack[..|stack| - 1]);
      ClosingQuiet(stack, Before(text, offset), semi);
    }
  }

  lemma AwaitedBelow(stack: string)
    requires Awaited(stack) && stack != ""
    ensures Awaited(stack[..|stack| - 1])
  {
  }

  lemma SemiQuiet()
    ensures Quiet(";")
  {
  }

  lemma ClosingQuiet(stack: string, before: string, semi: bool)
    requires stack != "" && Awaited(stack) && Quiet(Closers(stack[..|stack| - 1]))
    ensures Quiet(Closing(stack, before, semi))
  {
    var top := stack[|stack| - 1];
    var lead := if semi && top == '}' && before != "" && !EndsIn(before, ";{}") then ";" else "";
    var tail := if semi && (top == ')' || top == ']') then ";" else "";
    assert Closing(stack, before, semi) == lead + [top] + tail + Closers(stack[..|stack| - 1]);
    assert top in ")]}";
    SemiQuiet();
    assert Quiet(lead) && Quiet(tail) && Quiet([top]);
    hide Closing, Quiet, EndsIn, Closers;
    QuietJoin(lead, [top]);
    QuietJoin(lead + [top], tail);
    QuietJoin(lead + [top] + tail, Closers(stack[..|stack| - 1]));
  }

  lemma QuietJoin(a: string, b: string)
    requires Quiet(a) && Quiet(b)
    ensures Quiet(a + b)
  {
  }

  lemma InsertionIs(text: string, offset: nat, semi: bool)
    requires offset <= |text|
    ensures var stack := Loose("", Mask(text));
            Insertion(text, offset, semi) == if stack == "" then ";" else Closing(stack, Before(text, offset), semi)
  {
  }

  /** Inside a string or a comment a repair changes nothing that counts: the inserted bytes are part of it.  What
      was left open stays open, and so every further repair adds closers again. */
  lemma RepairInside(text: string, offset: nat, semi: bool)
    requires Inside(text, offset)
    ensures var r := Repaired(text, offset, semi);
            && (r.Some? ==> Balanced(r.value) == Balanced(text))
            && (Loose("", Mask(text)) != "" ==>
                  && r.Some? && !Balanced(r.value)
                  && forall o: nat :: o <= |r.value| ==> Repaired(r.value, o, false).Some?)
  {
    InsideCases(text, offset);
    hide *;
    var ins := Insertion(text, offset, semi);
    var fixed := text[..offset] + ins + text[offset..];
    RepairedParts(text, offset, semi);
    InsertionQuiet(text, offset, semi);
    SpliceInside(text, offset, ins);
    if Loose("", Mask(text)) != "" {
      LooseNotBalanced(text);
      forall o: nat | o <= |fixed| ensures Repaired(fixed, o, false).Some? {
        RepairedParts(fixed, o, false);
      }
    }
  }

  lemma RepairedParts(text: string, offset: nat, semi: bool)
    requires offset <= |text|
    ensures var r, ins := Repaired(text, offset, semi), Insertion(text, offset, semi);
            && (r.Some? ==> r.value == text[..offset] + ins + text[offset..])
            && (Loose("", Mask(text)) != "" ==> r.Some?)
  {
    hide Mask, Loose, Closing, TrimEnd, EndsIn;
  }

  lemma LooseNotBalanced(text: string)
    requires Loose("", Mask(text)) != ""
    ensures !Balanced(text)
  {
    hide Mask, Loose, Strict;
    if Strict("", Mask(text)).Some? {
      StrictIsLoose("", Mask(text));
    }
  }

  /** Quiet bytes inside a string or a comment leave both stacks as they are. */
  lemma SpliceInside(text: string, offset: nat, ins: string)
    requires offset <= |text| && Inside(text, offset) && Quiet(ins)
    ensures var fixed := text[..offset] + ins + text[offset..];
            Loose("", Mask(fixed)) == Loose("", Mask(text)) && Balanced(fixed) == Balanced(text)
  {
    hide Mask, Loose, Strict, Inside, Quiet;
    var p, q, m := text[..offset], text[offset..], Mask(text);
    assert p + q == text;
    QuietSplice(p, ins, q);
    assert m[..offset] + m[offset..] == m;
    BlanksBetween(m[..offset], |ins|, m[offset..]);
    hide *;
    BalancedByMask(text);
    BalancedByMask(p + ins + q);
  }

  lemma BalancedByMask(text: string)
    ensures Balanced(text) <==> Strict("", Mask(text)) == Some("")
  {
    hide Mask, Strict;
  }

  /** Wherever something is left open, the offset splits no escape and no comment delimiter, and the code before
      and after it is bracketed as it should be, the repaired text is balanced exactly when the offset is in
      code. */
  lemma RepairBalancesIff(text: string, offset: nat, semi: bool)
    requires offset <= |text| && !Splits(text, offset) && Loose("", Mask(text)) != ""
    requires Strict("", Mask(text)[..offset]).Some? && Strict("", Mask(text)[offset..]) == Some("")
    ensures Repaired(text, offset, semi).Some?
    ensures Balanced(Repaired(text, offset, semi).value) <==> CodeAt(text, offset)
  {
    hide Mask, Loose, Strict, Closing, Inside, CodeAt, Splits, TrimEnd;
    Everywhere(text, offset);
    if CodeAt(text, offset) {
      var p, q := text[..offset], text[offset..];
      assert p + q == text;
      NothingInert();
      MaskSplice(p, "", q);
      RepairBalances(text, offset, semi);
    } else {
      RepairInside(text, offset, semi);
    }
  }

  /** For instance at the end of a line comment. */
  lemma RepairInComment()
    ensures Inside("(//", 3) && Repaired("(//", 3, false) == Some("(//)") && !Balanced("(//)")
  {
    CommentMask("(//");
    assert "(//"[1..] == "//";
    assert Within("//", 2);
    assert Inside("(//"[1..], 2);
    assert Inside("(//", 3);
    hide *;
    RepairInside("(//", 3, false);
    TakeAll("(//");
    OneCloser(Before("(//", 3));
    assert "(//" + ")" + "" == "(//)";
    RepairedIs("(//", 3);
  }

  lemma TakeAll(s: string)
    ensures s[..|s|] == s && s[|s|..] == ""
  {
  }

  lemma OneCloser(before: string)
    ensures Closing(")", before, false) == ")"
  {
    assert ")"[..0] == "";
  }

  lemma RepairedIs(text: string, offset: nat)
    requires offset <= |text| && Loose("", Mask(text)) == ")"
    ensures Repaired(text, offset, false) ==
              Some(text[..offset] + Closing(")", Before(text, offset), false) + text[offset..])
  {
  }

  predicate LineAfterParen(s: string) {
    |s| >= 3 && s[0] == '(' && s[1] == '/' && s[2] == '/' && forall k :: 3 <= k < |s| ==> s[k] != '\n'
  }

  lemma CommentMask(s: string)
    requires LineAfterParen(s)
    ensures Loose("", Mask(s)) == ")"
  {
    var t := s[1..];
    assert t[0] == '/' && t[1] == '/';
    assert Token(t) == |t|;
    assert t[|t|..] == "";
    assert Mask(t) == Blanks(|t|) by {
      assert Blanks(|t|) + "" == Blanks(|t|);
    }
    assert Mask(s) == [s[0]] + Mask(t);
    hide Mask, Token;
    LooseByte("", '(', Blanks(|t|));
    assert Blanks(|t|) + "" == Blanks(|t|);
    assert Push("", '(') == ")";
    LooseBlanks(")", |t|, "");
  }

  lemma {:induction false} StrictBlanks(stack: string, n: nat)
    ensures Strict(stack, Blanks(n)) == Some(stack)
  {
    if n > 0 {
      assert Blanks(n)[1..] == Blanks(n - 1);
      StrictBlanks(stack, n - 1);
    }
  }
}
