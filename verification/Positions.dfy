/**
 Byte offsets into a UTF-8 text and the positions of the Language Server Protocol, which count lines and
 UTF-16 code units.
 */
module Positions {
  import opened Wrappers

  // ----- encodings -----

  function Utf8(c: char): (bytes: seq<nat>)
    ensures |bytes| == Len8(c)
    ensures forall i :: 0 <= i < |bytes| ==> (bytes[i] == 10 <==> i == 0 && c == '\n')
  {
    var n := c as int;
    if n < 0x80 then [n]
    else if n < 0x800 then [0xC0 + n / 0x40, 0x80 + n % 0x40]
    else if n < 0x10000 then [0xE0 + n / 0x1000, 0x80 + n / 0x40 % 0x40, 0x80 + n % 0x40]
    else [0xF0 + n / 0x40000, 0x80 + n / 0x1000 % 0x40, 0x80 + n / 0x40 % 0x40, 0x80 + n % 0x40]
  }

  function Len8(c: char): (n: nat)
    ensures 1 <= n <= 4
  {
    var n := c as int;
    if n < 0x80 then 1 else if n < 0x800 then 2 else if n < 0x10000 then 3 else 4
  }

  /** The number of UTF-16 code units of a character. */
  function Len16(c: char): (n: nat)
    ensures 1 <= n <= 2
  {
    if c as int < 0x10000 then 1 else 2
  }

  function Bytes(text: string): seq<nat> {
    if text == "" then [] else Bytes(text[..|text| - 1]) + Utf8(text[|text| - 1])
  }

  /** The byte offset of the boundary before character `k`. */
  function At(text: string, k: nat): nat
    requires k <= |text|
  {
    if k == 0 then 0 else At(text, k - 1) + Len8(text[k - 1])
  }

  /** Every element of an encoding is a byte. */
  lemma {:induction false} BytesSmall(text: string)
    ensures forall i :: 0 <= i < |Bytes(text)| ==> Bytes(text)[i] < 0x100
    decreases |text|
  {
    if text != "" {
      BytesSmall(text[..|text| - 1]);
    }
  }

  /** The code point that an encoding stands for, by its first byte. */
  function Point8(b: seq<nat>): int {
    if |b| == 1 && b[0] < 0x80 then b[0]
    else if |b| == 2 && 0xC0 <= b[0] < 0xE0 then (b[0] - 0xC0) * 0x40 + Low(b[1])
    else if |b| == 3 && 0xE0 <= b[0] < 0xF0 then (b[0] - 0xE0) * 0x1000 + Low(b[1]) * 0x40 + Low(b[2])
    else if |b| == 4 && 0xF0 <= b[0] < 0xF8 then
      (b[0] - 0xF0) * 0x40000 + Low(b[1]) * 0x1000 + Low(b[2]) * 0x40 + Low(b[3])
    else -1
  }

  /** The six bits of a byte that continues an encoding. */
  function Low(b: nat): int {
    if 0x80 <= b < 0xC0 then b - 0x80 else -0x1_0000_0000
  }

  /** The encoding is one: decoding it gives the character. */
  lemma Utf8Decodes(c: char)
    ensures Point8(Utf8(c)) == c as int
  {
    var n := c as int;
    if 0x800 <= n < 0x10000 {
      TwoDigits(n);
    } else if 0x10000 <= n {
      ThreeDigits(n);
    }
  }

  lemma TwoDigits(n: nat)
    ensures n == n / 0x1000 * 0x1000 + n / 0x40 % 0x40 * 0x40 + n % 0x40
  {
    Twice(n);
    LastDigit(n);
    LastDigit(n / 0x40);
  }

  lemma ThreeDigits(n: nat)
    ensures n == n / 0x40000 * 0x40000 + n / 0x1000 % 0x40 * 0x1000 + n / 0x40 % 0x40 * 0x40 + n % 0x40
  {
    TwoDigits(n);
    ThreeTimes(n);
    LastDigit(n / 0x1000);
  }

  lemma LastDigit(n: nat)
    ensures n == n / 0x40 * 0x40 + n % 0x40
  {
  }

  lemma Twice(n: nat)
    ensures n / 0x40 / 0x40 == n / 0x1000
  {
  }

  lemma ThreeTimes(n: nat)
    ensures n / 0x1000 / 0x40 == n / 0x40000
  {
  }

  lemma {:induction false} AtPrefix(text: string, n: nat, k: nat)
    requires k <= n <= |text|
    ensures At(text[..n], k) == At(text, k)
    decreases k
  {
    if k > 0 {
      AtPrefix(text, n, k - 1);
    }
  }

  lemma {:induction false} BytesAt(text: string, k: nat, j: nat)
    requires k < |text| && j < Len8(text[k])
    ensures |Bytes(text)| == At(text, |text|) && At(text, k) + j < |Bytes(text)|
    ensures Bytes(text)[At(text, k) + j] == Utf8(text[k])[j]
    decreases |text|
  {
    hide Utf8, Len8;
    var front := text[..|text| - 1];
    AtPrefix(text, |text| - 1, k);
    AtPrefix(text, |text| - 1, |text| - 1);
    if front == "" {
      assert Bytes(front) == [];
    } else {
      BytesAt(front, if k < |front| then k else 0, if k < |front| then j else 0);
    }
  }

  lemma {:induction false} AtGrows(text: string, j: nat, k: nat)
    requires j <= k <= |text|
    ensures At(text, j) + (k - j) <= At(text, k)
    decreases k
  {
    if j < k {
      AtGrows(text, j, k - 1);
    }
  }

  lemma BytesLength(text: string)
    ensures |Bytes(text)| == At(text, |text|)
  {
    if text != "" {
      BytesAt(text, 0, 0);
    }
  }

  // ----- positions of character boundaries -----

  datatype Position = Position(line: nat, character: nat)

  function Units(text: string, s: nat, k: nat): nat
    requires k <= |text|
    decreases k - s
  {
    if s >= k then 0 else Len16(text[s]) + Units(text, s + 1, k)
  }

  // ----- code units -----

  /** The UTF-16 encoding of a character: itself, or a pair of surrogates. */
  function Utf16(c: char): seq<nat> {
    var n := c as int;
    if n < 0x10000 then [n] else [0xD800 + (n - 0x10000) / 0x400, 0xDC00 + (n - 0x10000) % 0x400]
  }

  function Text16(text: string): seq<nat> {
    if text == "" then [] else Utf16(text[0]) + Text16(text[1..])
  }

  predicate IsHigh(u: nat) {
    0xD800 <= u < 0xDC00
  }

  /** The code points of a UTF-16 text, pairs of surrogates joined. */
  function Decode16(units: seq<nat>): seq<nat> {
    if units == [] then []
    else if IsHigh(units[0]) && |units| > 1 then
      [0x10000 + (units[0] - 0xD800) * 0x400 + (units[1] as int - 0xDC00) % 0x400] + Decode16(units[2..])
    else [units[0]] + Decode16(units[1..])
  }

  function Points(text: string): seq<nat> {
    seq(|text|, i requires 0 <= i < |text| => text[i] as nat)
  }

  /** The encoding is one: decoding it gives the text. */
  lemma {:induction false} Text16Decodes(text: string)
    ensures Decode16(Text16(text)) == Points(text)
  {
    if text != "" {
      Text16Decodes(text[1..]);
      HeadDecodes(text[0], Text16(text[1..]));
      assert Points(text) == [text[0] as nat] + Points(text[1..]);
    }
  }

  lemma HeadDecodes(c: char, rest: seq<nat>)
    ensures Decode16(Utf16(c) + rest) == [c as nat] + Decode16(rest)
  {
    var u := Utf16(c);
    assert (u + rest)[|u|..] == rest;
    Surrogates(c as int - 0x10000);
  }

  lemma Surrogates(n: int)
    ensures 0 <= n < 0x100000 ==> 0 <= n / 0x400 < 0x400 && n / 0x400 * 0x400 + n % 0x400 == n
  {
  }

  /** Columns count the code units of the text. */
  lemma {:induction false} UnitsAre(text: string, s: nat, k: nat)
    requires s <= k <= |text|
    ensures Units(text, s, k) == |Text16(text[s..k])|
    decreases k - s
  {
    if s < k {
      UnitsAre(text, s + 1, k);
      assert text[s..k][1..] == text[s + 1..k];
    }
  }

  lemma {:induction false} UnitsAppend(text: string, s: nat, k: nat)
    requires s <= k < |text|
    ensures Units(text, s, k + 1) == Units(text, s, k) + Len16(text[k])
    decreases k - s
  {
    if s < k {
      UnitsAppend(text, s + 1, k);
    } else {
      assert Units(text, k + 1, k + 1) == 0;
    }
  }

  /** The number of line feeds before character `k`. */
  function LineOf(text: string, k: nat): nat
    requires k <= |text|
  {
    if k == 0 then 0 else LineOf(text, k - 1) + if text[k - 1] == '\n' then 1 else 0
  }

  /** The first character of the line of `k`. */
  function LineStart(text: string, k: nat): (s: nat)
    requires k <= |text|
    ensures s <= k
  {
    if k == 0 then 0 else if text[k - 1] == '\n' then k else LineStart(text, k - 1)
  }

  /** The line feed that ends the line from `k` on, or the end of the text. */
  function LineEnd(text: string, k: nat): (e: nat)
    requires k <= |text|
    ensures k <= e <= |text| && (e < |text| ==> text[e] == '\n') && forall i :: k <= i < e ==> text[i] != '\n'
    decreases |text| - k
  {
    if k == |text| || text[k] == '\n' then k else LineEnd(text, k + 1)
  }

  function PositionAt(text: string, k: nat): Position
    requires k <= |text|
  {
    Position(LineOf(text, k), Units(text, LineStart(text, k), k))
  }

  /** The number of characters that start before byte `b`: a byte inside a character belongs to the boundary
      after it. */
  function Ceil(text: string, b: nat): (k: nat)
    ensures k <= |text|
  {
    if text == "" || b == 0 then 0
    else if At(text, |text| - 1) < b then |text|
    else
      Ceil(text[..|text| - 1], b)
  }

  predicate Covers(text: string, k: nat, b: nat) {
    k <= |text| && b <= At(text, k) && (k > 0 ==> At(text, k - 1) < b)
  }

  lemma CoversUnique(text: string, j: nat, k: nat, b: nat)
    requires Covers(text, j, b) && Covers(text, k, b)
    ensures j == k
  {
    if j < k {
      AtGrows(text, j, k - 1);
    } else if k < j {
      AtGrows(text, k, j - 1);
    }
  }

  lemma {:induction false} CeilCovers(text: string, b: nat)
    requires b <= At(text, |text|)
    ensures Covers(text, Ceil(text, b), b)
    decreases |text|
  {
    if text != "" && b > 0 && At(text, |text| - 1) >= b {
      var front := text[..|text| - 1];
      AtPrefix(text, |front|, |front|);
      CeilCovers(front, b);
      var k := Ceil(front, b);
      AtPrefix(text, |front|, k);
      if k > 0 {
        AtPrefix(text, |front|, k - 1);
      }
    }
  }

  lemma CeilOfBoundary(text: string, k: nat)
    requires k <= |text|
    ensures At(text, k) <= At(text, |text|) && Ceil(text, At(text, k)) == k
  {
    AtGrows(text, k, |text|);
    CeilCovers(text, At(text, k));
    CoversUnique(text, k, Ceil(text, At(text, k)), At(text, k));
  }

  /** What the byte at `b` says about the characters. */
  lemma NextByte(text: string, k: nat, b: nat)
    requires Covers(text, k, b) && b < |Bytes(text)|
    ensures b == At(text, k) ==> k < |text| && (Bytes(text)[b] == 10 <==> text[k] == '\n') && Covers(text, k + 1, b + 1)
    ensures b != At(text, k) ==> Bytes(text)[b] != 10 && Covers(text, k, b + 1)
  {
    BytesLength(text);
    if b == At(text, k) {
      if k < |text| {
        BytesAt(text, k, 0);
      }
    } else {
      BytesAt(text, k - 1, b - At(text, k - 1));
    }
  }

  method OffsetToPosition(text: string, position: nat) returns (p: Position)
    ensures var offset := if position < |Bytes(text)| then position else |Bytes(text)|;
            p == PositionAt(text, Ceil(text, offset))
  {
    hide Bytes, At, LineOf, LineStart, Ceil;
    var bytes := Bytes(text);
    var offset := if position < |bytes| then position else |bytes|;
    var line, lineStart := 0, 0;
    var index: nat := 0;
    ghost var k: nat := 0;
    StartOfText(text);
    while index < |bytes|
      invariant index <= offset && Covers(text, k, index)
      invariant line == LineOf(text, k) && lineStart == At(text, LineStart(text, k))
    {
      if index >= offset {
        break;
      }
      NextByte(text, k, index);
      if index == At(text, k) {
        NextChar(text, k);
        k := k + 1;
      }
      if bytes[index] == 10 {
        line := line + 1;
        lineStart := index + 1;
      }
      index := index + 1;
    }
    BytesLength(text);
    CeilCovers(text, offset);
    CoversUnique(text, k, Ceil(text, offset), offset);
    CeilOfBoundary(text, LineStart(text, k));
    var start := Ceil(text, lineStart);
    var character := 0;
    var i := start;
    while i < |text|
      invariant start <= i <= k && character == Units(text, start, i)
    {
      StartsBefore(text, i, k, offset);
      if At(text, i) >= offset {
        break;
      }
      UnitsAppend(text, start, i);
      character := character + Len16(text[i]);
      i := i + 1;
    }
    if i < |text| {
      StartsBefore(text, i, k, offset);
    }
    p := Position(line, character);
  }

  lemma StartOfText(text: string)
    ensures Covers(text, 0, 0) && LineOf(text, 0) == 0 && LineStart(text, 0) == 0 && At(text, 0) == 0
  {
  }

  lemma NextChar(text: string, k: nat)
    requires k < |text|
    ensures LineOf(text, k + 1) == LineOf(text, k) + if text[k] == '\n' then 1 else 0
    ensures LineStart(text, k + 1) == if text[k] == '\n' then k + 1 else LineStart(text, k)
    ensures text[k] == '\n' ==> At(text, k + 1) == At(text, k) + 1
  {
  }

  lemma StartsBefore(text: string, i: nat, k: nat, b: nat)
    requires Covers(text, k, b) && i <= |text|
    ensures At(text, i) >= b <==> i >= k
  {
    if i < k {
      AtGrows(text, i, k - 1);
    } else {
      AtGrows(text, k, i);
    }
  }

  // ----- back to offsets -----

  /** The start of the line that is `l` lines after the one of `k`. */
  function FindLine(text: string, l: nat, k: nat): (s: Option<nat>)
    requires k <= |text|
    ensures s.Some? ==> s.value <= |text|
    decreases |text| - k
  {
    if l == 0 then Some(k)
    else if k == |text| then None
    else FindLine(text, if text[k] == '\n' then l - 1 else l, k + 1)
  }

  /** Characters from `s` on until `units` code units are taken or the line ends. */
  function Take(text: string, s: nat, e: nat, units: nat): (k: nat)
    requires s <= e <= |text|
    ensures s <= k <= e
    decreases e - s
  {
    if s == e || units == 0 then s
    else Take(text, s + 1, e, if units <= Len16(text[s]) then 0 else units - Len16(text[s]))
  }

  function IndexOf(text: string, p: Position): (k: nat)
    ensures k <= |text|
  {
    var s := FindLine(text, p.line, 0);
    if s.None? then |text| else Take(text, s.value, LineEnd(text, s.value), p.character)
  }

  method PositionToOffset(text: string, p: Position) returns (offset: nat)
    ensures offset == At(text, IndexOf(text, p))
  {
    hide Bytes, At, FindLine, LineEnd, Take, Ceil;
    var bytes := Bytes(text);
    BytesLength(text);
    var line, lineStart, lineEnd: nat := 0, 0, |bytes|;
    ghost var k: nat, s: nat := 0, 0;
    var index: nat := 0;
    StartOfText(text);
    LineFound(text, 0);
    while index < |bytes|
      invariant index <= |bytes| && Covers(text, k, index) && lineEnd == |bytes| && line <= p.line
      invariant s <= k && lineStart == At(text, s)
      invariant line < p.line ==> FindLine(text, p.line, 0) == FindLine(text, p.line - line, k)
      invariant line == p.line ==> FindLine(text, p.line, 0) == Some(s) && LineEnd(text, s) == LineEnd(text, k)
    {
      NextByte(text, k, index);
      if bytes[index] == 10 {
        if line == p.line {
          lineEnd := index;
          EndsHere(text, k);
          break;
        }
        FindStep(text, p.line - line, k);
        NextChar(text, k);
        line := line + 1;
        lineStart := index + 1;
        s := k + 1;
        LineFound(text, k + 1);
      } else if index == At(text, k) {
        if line < p.line {
          FindStep(text, p.line - line, k);
        }
        GoesOn(text, k);
      }
      if index == At(text, k) {
        k := k + 1;
      }
      index := index + 1;
    }
    if index == |bytes| {
      AllCovered(text, k);
    }
    if line != p.line {
      return |bytes|;
    }
    CeilOfBoundary(text, s);
    CeilOfBoundary(text, LineEnd(text, s));
    var start, end := Ceil(text, lineStart), Ceil(text, lineEnd);
    var taken := 0;
    offset := lineStart;
    var i := start;
    while i < end
      invariant start <= i <= end && offset == At(text, i)
      invariant Take(text, start, end, p.character) ==
                  Take(text, i, end, if taken >= p.character then 0 else p.character - taken)
    {
      TakeStep(text, i, end, if taken >= p.character then 0 else p.character - taken);
      if taken >= p.character {
        break;
      }
      AtStep(text, i);
      taken := taken + Len16(text[i]);
      offset := offset + Len8(text[i]);
      i := i + 1;
    }
    TakeStep(text, i, end, if taken >= p.character then 0 else p.character - taken);
    AtGrows(text, i, end);
    if offset > lineEnd {
      offset := lineEnd;
    }
  }

  lemma LineFound(text: string, k: nat)
    requires k <= |text|
    ensures FindLine(text, 0, k) == Some(k)
  {
  }

  lemma FindStep(text: string, l: nat, k: nat)
    requires l > 0 && k < |text|
    ensures FindLine(text, l, k) == FindLine(text, if text[k] == '\n' then l - 1 else l, k + 1)
  {
  }

  lemma EndsHere(text: string, k: nat)
    requires k < |text| && text[k] == '\n'
    ensures LineEnd(text, k) == k
  {
  }

  lemma GoesOn(text: string, k: nat)
    requires k < |text| && text[k] != '\n'
    ensures LineEnd(text, k) == LineEnd(text, k + 1)
  {
  }

  lemma AllCovered(text: string, k: nat)
    requires Covers(text, k, |Bytes(text)|)
    ensures k == |text| && LineEnd(text, k) == |text| && forall l: nat :: l > 0 ==> FindLine(text, l, k).None?
  {
    BytesLength(text);
    if k < |text| {
      AtGrows(text, k, |text|);
    }
  }

  lemma AtStep(text: string, k: nat)
    requires k < |text|
    ensures At(text, k + 1) == At(text, k) + Len8(text[k])
  {
  }

  lemma TakeStep(text: string, s: nat, e: nat, units: nat)
    requires s <= e <= |text|
    ensures Take(text, s, e, units) == if s == e || units == 0 then s
              else Take(text, s + 1, e, if units <= Len16(text[s]) then 0 else units - Len16(text[s]))
  {
  }

  // ----- the laws -----

  lemma {:induction false} FindItsLine(text: string, k: nat)
    requires k <= |text|
    ensures FindLine(text, LineOf(text, k), 0) == Some(LineStart(text, k))
    decreases k
  {
    FindFrom(text, 0, k);
    if LineOf(text, k) == 0 {
      FirstLine(text, k);
    }
  }

  lemma {:induction false} FirstLine(text: string, k: nat)
    requires k <= |text| && LineOf(text, k) == 0
    ensures LineStart(text, k) == 0
  {
    if k > 0 {
      FirstLine(text, k - 1);
    }
  }

  /** From any character on, the line of a later one is found where it starts. */
  lemma {:induction false} FindFrom(text: string, j: nat, k: nat)
    requires j <= k <= |text|
    ensures LineOf(text, j) <= LineOf(text, k)
    ensures LineOf(text, j) < LineOf(text, k) ==>
              FindLine(text, LineOf(text, k) - LineOf(text, j), j) == Some(LineStart(text, k))
    ensures LineOf(text, j) == LineOf(text, k) ==> LineStart(text, j) == LineStart(text, k)
    decreases k - j
  {
    if j < k {
      FindFrom(text, j + 1, k);
    }
  }

  lemma {:induction false} TakeUnits(text: string, s: nat, k: nat, e: nat)
    requires s <= k <= e <= |text|
    ensures Take(text, s, e, Units(text, s, k)) == k
    decreases k - s
  {
    if s < k {
      TakeUnits(text, s + 1, k, e);
    }
  }

  lemma {:induction false} InLine(text: string, k: nat)
    requires k <= |text|
    ensures forall i :: LineStart(text, k) <= i < k ==> text[i] != '\n'
    ensures LineStart(text, LineStart(text, k)) == LineStart(text, k)
    ensures LineOf(text, LineStart(text, k)) == LineOf(text, k)
    decreases k
  {
    if k > 0 && text[k - 1] != '\n' {
      InLine(text, k - 1);
    }
  }

  /** From a character boundary to a position and back. */
  lemma RoundTrip(text: string, k: nat)
    requires k <= |text|
    ensures IndexOf(text, PositionAt(text, k)) == k
  {
    hide FindLine, LineStart, LineOf, Take, Units;
    FindItsLine(text, k);
    InLine(text, k);
    TakeUnits(text, LineStart(text, k), k, LineEnd(text, LineStart(text, k)));
  }

  predicate Less(p: Position, q: Position) {
    p.line < q.line || (p.line == q.line && p.character < q.character)
  }

  /** Later boundaries have later positions. */
  lemma {:induction false} Monotone(text: string, j: nat, k: nat)
    requires j < k <= |text|
    ensures Less(PositionAt(text, j), PositionAt(text, k))
    decreases k
  {
    UnitsAppend(text, LineStart(text, k - 1), k - 1);
    if j < k - 1 {
      Monotone(text, j, k - 1);
    }
  }

  lemma {:induction false} TakeTotal(text: string, s: nat, e: nat, units: nat)
    requires s <= e <= |text|
    ensures var k := Take(text, s, e, units);
            && (units >= Units(text, s, e) ==> k == e)
            && (units <= Units(text, s, e) ==> units <= Units(text, s, k) <= units + 1)
            && (units <= Units(text, s, e) && Units(text, s, k) == units + 1 ==>
                  s < k && Len16(text[k - 1]) == 2 && Units(text, s, k - 1) == units - 1)
    decreases e - s
  {
    if s < e && units > 0 {
      var rest := if units <= Len16(text[s]) then 0 else units - Len16(text[s]);
      TakeTotal(text, s + 1, e, rest);
    }
  }

  lemma {:induction false} FoundLine(text: string, l: nat, j: nat)
    requires j <= |text|
    ensures var s := FindLine(text, l, j);
            && (s.Some? ==>
                  && j <= s.value && LineOf(text, s.value) == LineOf(text, j) + l
                  && (l > 0 ==> LineStart(text, s.value) == s.value))
            && (s.None? ==> LineOf(text, |text|) < LineOf(text, j) + l)
    decreases |text| - j
  {
    if l > 0 && j < |text| {
      FoundLine(text, if text[j] == '\n' then l - 1 else l, j + 1);
    }
  }

  lemma {:induction false} SameLine(text: string, s: nat, k: nat)
    requires s <= |text| && s <= k <= LineEnd(text, s) && LineStart(text, s) == s
    ensures LineOf(text, k) == LineOf(text, s) && LineStart(text, k) == s
    decreases k
  {
    if s < k {
      SameLine(text, s, k - 1);
    }
  }

  /** The code units of a line. */
  function Width(text: string, s: nat): nat
    requires s <= |text|
  {
    Units(text, s, LineEnd(text, s))
  }

  /** From a position to an offset and back: a line past the last one goes to the end of the text, a column past
      the end of its line to the end of the line; any other position comes back unchanged, unless it lies
      between the two units of one character, after which it is then moved. */
  lemma BackAgain(text: string, p: Position)
    ensures var s := FindLine(text, p.line, 0);
            var q := PositionAt(text, IndexOf(text, p));
            && (s.None? <==> p.line > LineOf(text, |text|))
            && (s.None? ==> IndexOf(text, p) == |text|)
            && (s.Some? ==>
                  && q.line == p.line
                  && (p.character >= Width(text, s.value) ==>
                     IndexOf(text, p) == LineEnd(text, s.value) && q.character == Width(text, s.value))
                  && (p.character <= Width(text, s.value) ==>
                        || q == p
                        || (q.character == p.character + 1 && Len16(text[IndexOf(text, p) - 1]) == 2)))
  {
    FoundLine(text, p.line, 0);
    var s := FindLine(text, p.line, 0);
    hide FindLine, Units, Take;
    LinesGrow(text, if s.Some? then s.value else 0, |text|);
    if s.Some? {
      if p.line == 0 {
        LineFound(text, 0);
      }
      TakeTotal(text, s.value, LineEnd(text, s.value), p.character);
      SameLine(text, s.value, IndexOf(text, p));
    }
  }

  lemma {:induction false} LinesGrow(text: string, j: nat, k: nat)
    requires j <= k <= |text|
    ensures LineOf(text, j) <= LineOf(text, k)
    decreases k
  {
    if j < k {
      LinesGrow(text, j, k - 1);
    }
  }

  // ----- line terminators of the protocol -----

  /** The protocol's lines end with a line feed, a carriage return, or the two together. */
  predicate EndsLine(text: string, i: nat)
    requires i < |text|
  {
    text[i] == '\n' || (text[i] == '\r' && (i + 1 == |text| || text[i + 1] != '\n'))
  }

  function ProtocolLine(text: string, k: nat): nat
    requires k <= |text|
  {
    if k == 0 then 0 else ProtocolLine(text, k - 1) + if EndsLine(text, k - 1) then 1 else 0
  }

  predicate LoneReturn(text: string, i: nat)
    requires i < |text|
  {
    EndsLine(text, i) && text[i] != '\n'
  }

  lemma {:induction false} LinesDiffer(text: string, k: nat)
    requires k <= |text|
    ensures LineOf(text, k) <= ProtocolLine(text, k)
    ensures (LineOf(text, k) == ProtocolLine(text, k)) <==> (forall i :: 0 <= i < k ==> !LoneReturn(text, i))
    decreases k
  {
    if k > 0 {
      LinesDiffer(text, k - 1);
      assert LineOf(text, k) == ProtocolLine(text, k) <==>
        LineOf(text, k - 1) == ProtocolLine(text, k - 1) && !LoneReturn(text, k - 1);
    }
  }

  /** Where the protocol's line of `k` starts. */
  function ProtocolStart(text: string, k: nat): (s: nat)
    requires k <= |text|
    ensures s <= k
  {
    if k == 0 then 0 else if EndsLine(text, k - 1) then k else ProtocolStart(text, k - 1)
  }

  /** The protocol's position of a character boundary. */
  function ProtocolPosition(text: string, k: nat): Position
    requires k <= |text|
  {
    Position(ProtocolLine(text, k), Units(text, ProtocolStart(text, k), k))
  }

  predicate NoLoneReturn(text: string, s: nat, k: nat)
    requires k <= |text|
  {
    forall i :: s <= i < k ==> !LoneReturn(text, i)
  }

  /** The protocol's line starts no earlier, and there exactly when no lone carriage return lies between. */
  lemma {:induction false} StartsDiffer(text: string, k: nat)
    requires k <= |text|
    ensures LineStart(text, k) <= ProtocolStart(text, k)
    ensures LineStart(text, k) == ProtocolStart(text, k) <==> NoLoneReturn(text, LineStart(text, k), k)
    decreases k
  {
    if k > 0 {
      StartsDiffer(text, k - 1);
      if EndsLine(text, k - 1) && text[k - 1] != '\n' {
        assert LoneReturn(text, k - 1);
      }
    }
  }

  /** Every character has code units, so that a later start leaves fewer. */
  lemma {:induction false} UnitsFrom(text: string, s: nat, t: nat, k: nat)
    requires s <= t <= k <= |text|
    ensures Units(text, t, k) <= Units(text, s, k)
    ensures Units(text, t, k) == Units(text, s, k) <==> s == t
    decreases t - s
  {
    if s < t {
      UnitsFrom(text, s + 1, t, k);
    }
  }

  /** The position computed for a boundary is the protocol's exactly when no lone carriage return lies before
      it; its column is exactly when none lies before it on its line. */
  lemma PositionAgreesIff(text: string, k: nat)
    requires k <= |text|
    ensures PositionAt(text, k) == ProtocolPosition(text, k) <==> NoLoneReturn(text, 0, k)
    ensures PositionAt(text, k).character == ProtocolPosition(text, k).character <==>
            NoLoneReturn(text, LineStart(text, k), k)
  {
    LinesDiffer(text, k);
    StartsDiffer(text, k);
    UnitsFrom(text, LineStart(text, k), ProtocolStart(text, k), k);
    hide LoneReturn, LineStart, ProtocolStart, ProtocolLine, LineOf, Units;
  }

  /** For instance, after a lone carriage return. */
  lemma ReturnEndsLine()
    ensures PositionAt("\rx", 1) == Position(0, 1) && ProtocolPosition("\rx", 1) == Position(1, 0)
  {
    var text := "\rx";
    assert text[0] == '\r' && text[1] == 'x' && LineOf(text, 0) == 0 && LineStart(text, 0) == 0;
    assert EndsLine(text, 0) && ProtocolLine(text, 0) == 0 && Units(text, 1, 1) == 0;
  }

  /** Line numbers are those of the protocol exactly when every carriage return is followed by a line feed. */
  lemma LinesAgreeIff(text: string)
    ensures (forall k :: 0 <= k <= |text| ==> LineOf(text, k) == ProtocolLine(text, k)) <==>
            forall i :: 0 <= i < |text| && text[i] == '\r' ==> i + 1 < |text| && text[i + 1] == '\n'
  {
    forall k | 0 <= k <= |text| ensures LineOf(text, k) == ProtocolLine(text, k) <==> forall i :: 0 <= i < k ==>
      !LoneReturn(text, i) {
      LinesDiffer(text, k);
    }
    hide LineOf, ProtocolLine;
    forall i | 0 <= i < |text| ensures LoneReturn(text, i) <==>
      text[i] == '\r' && !(i + 1 < |text| && text[i + 1] == '\n') {
    }
    if i :| 0 <= i < |text| && LoneReturn(text, i) {
      assert LineOf(text, |text|) != ProtocolLine(text, |text|);
    } else {
      forall k | 0 <= k <= |text| ensures LineOf(text, k) == ProtocolLine(text, k) {
      }
      forall i | 0 <= i < |text| && text[i] == '\r' ensures i + 1 < |text| && text[i + 1] == '\n' {
        assert !LoneReturn(text, i);
      }
    }
  }

  /** The end of a line's text for the protocol, before its terminator. */
  function ProtocolEnd(text: string, k: nat): (e: nat)
    requires k <= |text|
    ensures k <= e <= |text| && (e < |text| ==> text[e] == '\n' || text[e] == '\r')
    ensures forall i :: k <= i < e ==> text[i] != '\n' && text[i] != '\r'
    decreases |text| - k
  {
    if k == |text| || text[k] == '\n' || text[k] == '\r' then k else ProtocolEnd(text, k + 1)
  }

  /** Columns past the end are clamped to the protocol's line end exactly when there is no carriage return. */
  lemma EndsAgreeIff(text: string)
    ensures (forall k :: 0 <= k <= |text| ==> LineEnd(text, k) == ProtocolEnd(text, k)) <==> '\r' !in text
  {
    if i :| 0 <= i < |text| && text[i] == '\r' {
      assert ProtocolEnd(text, i) == i && LineEnd(text, i) > i;
    }
    if '\r' !in text {
      forall k | 0 <= k <= |text| ensures LineEnd(text, k) == ProtocolEnd(text, k) {
        var a, b := LineEnd(text, k), ProtocolEnd(text, k);
        assert b < |text| ==> text[b] in text;
      }
    }
  }
}
