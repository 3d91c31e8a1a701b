/**
 Builtin shapes: the types that builtin implementations are written for, their printed keys, and the matcher
 that the language server runs on printed types.
 */
module Shapes {
  import opened Wrappers

  datatype BuiltinType =
    | I8 | I16 | I32 | I64 | Isize
    | U8 | U16 | U32 | U64 | Usize
    | F32 | F64 | Bool | Char | Void | Never

  type U32Index = n: nat | n < 0x1_0000_0000
  type U64Length = n: nat | n < 0x1_0000_0000_0000_0000

  datatype Shape =
    | Scalar(builtin: BuiltinType)
    | Slice(element: Shape, isConst: bool)
    | ManyPointer(element: Shape, isConst: bool)
    | Array(element: Shape, len: U64Length)
    | Param(index: U32Index)

  predicate HasParams(s: Shape) {
    match s
    case Scalar(_) => false
    case Slice(e, _) => HasParams(e)
    case ManyPointer(e, _) => HasParams(e)
    case Array(e, _) => HasParams(e)
    case Param(_) => true
  }

  // ----- printing -----

  function Name(b: BuiltinType): (s: string)
    ensures |s| >= 2 && forall i :: 0 <= i < |s| ==> IsLetter(s[i]) || (i > 0 && IsDigit(s[i]))
    ensures b.Char? || s[0] != 'c'
  {
    match b
    case I8 => "i8"
    case I16 => "i16"
    case I32 => "i32"
    case I64 => "i64"
    case Isize => "isize"
    case U8 => "u8"
    case U16 => "u16"
    case U32 => "u32"
    case U64 => "u64"
    case Usize => "usize"
    case F32 => "f32"
    case F64 => "f64"
    case Bool => "bool"
    case Char => "char"
    case Void => "void"
    case Never => "never"
  }

  predicate IsLetter(c: char) {
    'a' <= c <= 'z'
  }

  predicate IsDigit(c: char) {
    '0' <= c <= '9'
  }

  function DigitOf(n: nat): (c: char)
    requires n < 10
    ensures IsDigit(c)
  {
    '0' + n as char
  }

  predicate AllDigits(s: string) {
    forall i :: 0 <= i < |s| ==> IsDigit(s[i])
  }

  function Decimal(n: nat): (s: string)
    ensures s != "" && AllDigits(s)
  {
    if n < 10 then [DigitOf(n)] else Decimal(n / 10) + [DigitOf(n % 10)]
  }

  function Digits(s: string): nat
    requires AllDigits(s)
  {
    if s == "" then 0 else 10 * Digits(s[..|s| - 1]) + (s[|s| - 1] as int - '0' as int)
  }

  function ConstPrefix(isConst: bool): string {
    if isConst then "const " else ""
  }

  function Key(s: Shape): string {
    match s
    case Scalar(b) => Name(b)
    case Slice(e, c) => "[]" + ConstPrefix(c) + Key(e)
    case ManyPointer(e, c) => "[*]" + ConstPrefix(c) + Key(e)
    case Array(e, n) => "[" + Decimal(n) + "]" + Key(e)
    case Param(i) => "#" + Decimal(i)
  }

  lemma {:induction false} DigitsDecimal(n: nat)
    ensures Digits(Decimal(n)) == n
  {
    if n >= 10 {
      var s := Decimal(n);
      assert s[..|s| - 1] == Decimal(n / 10);
      DigitsDecimal(n / 10);
    }
  }

  // ----- the matcher -----

  predicate IsSpace(c: char) {
    c == ' ' || (9 as char <= c && c <= 13 as char)
  }

  lemma SpacesAre(c: char)
    ensures IsSpace(c) <==> c in {' ', '\t', '\n', '\r', 11 as char, 12 as char}
  {
  }

  function TrimStart(s: string): string {
    if s != "" && IsSpace(s[0]) then TrimStart(s[1..]) else s
  }

  function TrimEnd(s: string): string {
    if s != "" && IsSpace(s[|s| - 1]) then TrimEnd(s[..|s| - 1]) else s
  }

  function Trim(s: string): string {
    TrimEnd(TrimStart(s))
  }

  predicate StartsWith(s: string, prefix: string) {
    prefix <= s
  }

  method StripPointerWrappers(ty: string) returns (name: string)
    ensures name == Unwrapped(Trim(ty))
    ensures forall ps, rest :: Spaced(ps) && Bare(rest) && Padded(ty, Printed(ps) + rest) ==> name == rest
  {
    hide Spaced, Bare, Printed, Padded;
    forall ps, rest | Spaced(ps) && Bare(rest) && Padded(ty, Printed(ps) + rest)
      ensures Unwrapped(Trim(ty)) == rest
    {
      PaddingGone(ty, ps, rest);
      PointersStripped(ps, rest);
    }
    name := Trim(ty);
    while true
      invariant Unwrapped(name) == Unwrapped(Trim(ty))
      decreases |name|
    {
      if StartsWith(name, "[") {
        return;
      }
      if StartsWith(name, "*const ") {
        TrimShrinks(name[7..]);
        name := TrimStart(name[7..]);
        continue;
      }
      if StartsWith(name, "*") {
        TrimShrinks(name[1..]);
        name := TrimStart(name[1..]);
        continue;
      }
      return;
    }
  }

  lemma {:induction false} TrimShrinks(s: string)
    ensures |TrimStart(s)| <= |s|
  {
    if s != "" && IsSpace(s[0]) {
      TrimShrinks(s[1..]);
    }
  }

  /** A type without the single pointers around it. */
  function Unwrapped(name: string): string
    decreases |name|
  {
    if StartsWith(name, "[") then name
    else if StartsWith(name, "*const ") then
      TrimShrinks(name[7..]);
      Unwrapped(TrimStart(name[7..]))
    else if StartsWith(name, "*") then
      TrimShrinks(name[1..]);
      Unwrapped(TrimStart(name[1..]))
    else name
  }

  // ----- single pointers, as they are printed -----

  /** A single pointer in a type, and the white space after it. */
  datatype Pointer = Pointer(isConst: bool, space: string)

  function Mark(p: Pointer): string {
    (if p.isConst then "*const " else "*") + p.space
  }

  function Printed(ps: seq<Pointer>): string {
    if ps == [] then "" else Mark(ps[0]) + Printed(ps[1..])
  }

  predicate Spaced(ps: seq<Pointer>) {
    forall p :: p in ps ==> Blank(p.space)
  }

  /** A text that begins with neither white space nor a pointer, nor with what would make a constant pointer of the
      one in front of it, and does not end with white space. */
  predicate Bare(s: string) {
    s != "" && !IsSpace(s[0]) && s[0] != '*' && !StartsWith(s, "const ") && !IsSpace(s[|s| - 1])
  }

  predicate Blank(s: string) {
    forall i :: 0 <= i < |s| ==> IsSpace(s[i])
  }

  /** `ty` is `s` with white space around it. */
  ghost predicate Padded(ty: string, s: string) {
    exists lead, trail :: Blank(lead) && Blank(trail) && ty == lead + (s + trail)
  }

  lemma {:induction false} EndGone(s: string, space: string)
    requires Blank(space) && (s == "" || !IsSpace(s[|s| - 1]))
    ensures TrimEnd(s + space) == s
  {
    if space == "" {
      assert s + space == s;
    } else {
      var n := |space| - 1;
      EndGone(s, space[..n]);
      assert (s + space)[..|s| + n] == s + space[..n] && (s + space)[|s| + n] == space[n];
    }
  }

  lemma PaddingGone(ty: string, ps: seq<Pointer>, rest: string)
    requires Spaced(ps) && Bare(rest) && Padded(ty, Printed(ps) + rest)
    ensures Trim(ty) == Printed(ps) + rest
  {
    var s := Printed(ps) + rest;
    var lead, trail :| Blank(lead) && Blank(trail) && ty == lead + (s + trail);
    PrintedHead(ps, rest);
    assert s[|s| - 1] == rest[|rest| - 1] && (s + trail)[0] == s[0];
    SpaceGone(lead, s + trail);
    EndGone(s, trail);
  }

  lemma {:induction false} SpaceGone(space: string, s: string)
    requires Blank(space) && (s == "" || !IsSpace(s[0]))
    ensures TrimStart(space + s) == s
  {
    if space == "" {
      assert space + s == s;
    } else {
      SpaceGone(space[1..], s);
      assert (space + s)[1..] == space[1..] + s;
    }
  }

  lemma PointerGone(p: Pointer, s: string)
    requires Blank(p.space)
    requires s == "" || (!IsSpace(s[0]) && !StartsWith(s, "const "))
    ensures Unwrapped(Mark(p) + s) == Unwrapped(s)
  {
    hide IsSpace, Unwrapped;
    var ty := Mark(p) + s;
    SpaceGone(p.space, s);
    StarUnwrapped(ty);
    if p.isConst {
      assert ty[..7] == "*const " && ty[7..] == p.space + s;
    } else {
      assert ty[0] == '*' && ty[1..] == p.space + s;
      PlainStar(p.space, s, ty);
    }
  }

  lemma StarUnwrapped(ty: string)
    requires StartsWith(ty, "*")
    ensures !StartsWith(ty, "const ")
    ensures Unwrapped(ty) ==
              if StartsWith(ty, "*const ") then Unwrapped(TrimStart(ty[7..])) else Unwrapped(TrimStart(ty[1..]))
  {
    hide TrimStart;
    assert "const "[0] == 'c' && "*"[0] == '*' && "["[0] == '[';
  }

  lemma PlainStar(space: string, s: string, ty: string)
    requires Blank(space) && !StartsWith(s, "const ")
    requires ty != "" && ty[1..] == space + s
    ensures !StartsWith(ty, "*const ")
  {
    NotConst(space, s);
    TailConst(ty);
    hide IsSpace;
  }

  lemma TailConst(ty: string)
    requires ty != ""
    ensures StartsWith(ty, "*const ") ==> StartsWith(ty[1..], "const ")
  {
    if StartsWith(ty, "*const ") {
      assert ty[1..][..6] == ty[1..7] == "*const "[1..] == "const ";
    }
  }

  lemma NotConst(space: string, s: string)
    requires Blank(space) && !StartsWith(s, "const ")
    ensures !StartsWith(space + s, "const ")
  {
    assert !IsSpace('c') && "const "[0] == 'c';
    if space == "" {
      assert space + s == s;
    } else {
      assert (space + s)[0] == space[0];
    }
  }

  /** What is left after all the pointers in front of a type are taken away. */
  lemma {:induction false} PointersStripped(ps: seq<Pointer>, rest: string)
    requires Spaced(ps) && Bare(rest)
    ensures Unwrapped(Printed(ps) + rest) == rest
  {
    hide IsSpace;
    if ps == [] {
      assert Printed(ps) + rest == rest;
      BareStays(rest);
    } else {
      PointersStripped(ps[1..], rest);
      var tail := Printed(ps[1..]) + rest;
      assert Printed(ps) + rest == Mark(ps[0]) + tail;
      PrintedHead(ps[1..], rest);
      PointerGone(ps[0], tail);
    }
  }

  lemma BareStays(rest: string)
    requires Bare(rest)
    ensures Unwrapped(rest) == rest
  {
    assert "*const "[0] == '*';
  }

  lemma PrintedHead(ps: seq<Pointer>, rest: string)
    requires Bare(rest)
    ensures var s := Printed(ps) + rest; s == "" || (!IsSpace(s[0]) && !StartsWith(s, "const "))
  {
    if ps == [] {
      assert Printed(ps) + rest == rest;
    } else {
      assert (Printed(ps) + rest)[0] == '*' && "const "[0] == 'c';
    }
  }

  function StripConst(ty: string): (bool, string) {
    var t := TrimStart(ty);
    if StartsWith(t, "const ") then (true, TrimStart(t[6..])) else (false, t)
  }

  function FindClose(s: string): (k: nat)
    ensures k <= |s| && (k < |s| ==> s[k] == ']') && forall i :: 0 <= i < k ==> s[i] != ']'
  {
    if s == "" || s[0] == ']' then 0 else 1 + FindClose(s[1..])
  }

  datatype Binding = Binding(slot: U32Index, text: string)

  predicate FirstFor(bindings: seq<Binding>, slot: U32Index, i: int) {
    0 <= i < |bindings| && bindings[i].slot == slot && forall j :: 0 <= j < i ==> bindings[j].slot != slot
  }

  /** The text of the first binding of a slot. */
  function Bound(bindings: seq<Binding>, slot: U32Index): (r: Option<string>)
    ensures r == None <==> forall i :: 0 <= i < |bindings| ==> bindings[i].slot != slot
    ensures forall i :: FirstFor(bindings, slot, i) ==> r == Some(bindings[i].text)
  {
    if bindings == [] then None
    else if bindings[0].slot == slot then Some(bindings[0].text)
    else Bound(bindings[1..], slot)
  }

  datatype Outcome = Outcome(ok: bool, bindings: seq<Binding>)

  function MatchesText(s: Shape, text: string, bindings: seq<Binding>): Outcome
    decreases s
  {
    var ty := Trim(text);
    match s
    case Scalar(b) => Outcome(ty == Name(b), bindings)
    case Slice(e, c) =>
      if !StartsWith(ty, "[]") then Outcome(false, bindings)
      else
        var (found, rest) := StripConst(ty[2..]);
        if found != c then Outcome(false, bindings) else MatchesText(e, rest, bindings)
    case ManyPointer(e, c) =>
      if !StartsWith(ty, "[*]") then Outcome(false, bindings)
      else
        var (found, rest) := StripConst(ty[3..]);
        if found != c then Outcome(false, bindings) else MatchesText(e, rest, bindings)
    case Array(e, n) =>
      if !StartsWith(ty, "[") then Outcome(false, bindings)
      else
        var rest := ty[1..];
        var close := FindClose(rest);
        if close == |rest| || close == 0 || !AllDigits(rest[..close]) || Digits(rest[..close]) != n then
          Outcome(false, bindings)
        else MatchesText(e, rest[close + 1..], bindings)
    case Param(i) =>
      var bound := Bound(bindings, i);
      if bound.Some? then Outcome(bound.value == ty, bindings) else Outcome(true, bindings + [Binding(i, ty)])
  }

  method ShapeMatchesType(s: Shape, ty: string) returns (ok: bool)
    ensures ok == MatchesText(s, Unwrapped(Trim(ty)), []).ok
    ensures forall ps, t :: Spaced(ps) && Padded(ty, Printed(ps) + Key(t)) ==> (ok <==> Instance(s, t))
  {
    hide Spaced, Bare, Printed, Padded;
    var name := StripPointerWrappers(ty);
    ok := MatchesText(s, name, []).ok;
    forall ps, t | Spaced(ps) && Padded(ty, Printed(ps) + Key(t)) ensures ok <==> Instance(s, t) {
      BareKey(t);
      MatchesInstance(s, t);
    }
  }

  // ----- keys -----

  /** How a key starts: no white space, and in a way that tells the kinds of shape apart. */
  lemma KeyHead(t: Shape)
    ensures |Key(t)| >= 2 && !IsSpace(Key(t)[0])
    ensures t.Scalar? <==> IsLetter(Key(t)[0])
    ensures t.Param? <==> Key(t)[0] == '#'
    ensures t.Slice? || t.ManyPointer? || t.Array? <==> Key(t)[0] == '['
    ensures t.Slice? ==> Key(t)[1] == ']'
    ensures t.ManyPointer? ==> Key(t)[1] == '*'
    ensures t.Array? ==> IsDigit(Key(t)[1])
    ensures Key(t)[0] == 'c' ==> t == Scalar(Char)
  {
    hide Decimal;
    if t.Array? {
      assert Key(t)[1] == Decimal(t.len)[0];
    } else if t.Slice? || t.ManyPointer? {
      assert Key(t)[1] == if t.Slice? then ']' else '*';
    }
  }

  /** How a key ends: with a letter or a digit. */
  lemma {:induction false} KeyTail(t: Shape)
    ensures Key(t) != "" && !IsSpace(Key(t)[|Key(t)| - 1])
  {
    hide Decimal, IsSpace, Name;
    NoSpaceInWords();
    match t
    case Scalar(b) =>
    case Slice(e, c) =>
      KeyTail(e);
      SameEnd("[]" + ConstPrefix(c), Key(e));
    case ManyPointer(e, c) =>
      KeyTail(e);
      SameEnd("[*]" + ConstPrefix(c), Key(e));
    case Array(e, n) =>
      KeyTail(e);
      SameEnd("[" + Decimal(n) + "]", Key(e));
    case Param(i) => SameEnd("#", Decimal(i));
  }

  lemma SameEnd(front: string, s: string)
    requires s != ""
    ensures var r := front + s; r != "" && r[|r| - 1] == s[|s| - 1]
  {
  }

  lemma NoSpaceInWords()
    ensures forall c :: IsLetter(c) || IsDigit(c) ==> !IsSpace(c)
  {
  }

  lemma TrimKey(t: Shape)
    ensures TrimStart(Key(t)) == Key(t) && Trim(Key(t)) == Key(t)
  {
    KeyHead(t);
    KeyTail(t);
  }

  /** No key starts with the marker for constants. */
  lemma NoConst(t: Shape)
    ensures !StartsWith(Key(t), "const ")
  {
    KeyHead(t);
    assert "const "[0] == 'c' && "const "[1] == 'o';
    if Key(t)[0] == 'c' {
      assert Key(t)[1] == 'h';
    }
  }

  lemma BareKey(t: Shape)
    ensures Bare(Key(t))
  {
    KeyHead(t);
    KeyTail(t);
    NoConst(t);
    hide Key;
  }

  lemma StripConstKey(c: bool, t: Shape)
    ensures StripConst(ConstPrefix(c) + Key(t)) == (c, Key(t))
  {
    TrimKey(t);
    NoConst(t);
    hide Key;
    var s := ConstPrefix(c) + Key(t);
    if c {
      assert s[0] == 'c';
      assert TrimStart(s) == s && s[6..] == Key(t) && s[..6] == "const ";
    } else {
      assert s == Key(t);
    }
  }

  lemma CloseOfKey(n: nat, rest: string)
    ensures var s := Decimal(n) + "]" + rest;
            FindClose(s) == |Decimal(n)| < |s| && s[..|Decimal(n)|] == Decimal(n) && s[|Decimal(n)| + 1..] == rest
  {
    hide Decimal;
    var d := Decimal(n);
    var s := d + "]" + rest;
    assert s[|d|] == ']';
    forall i | 0 <= i < |d| ensures s[i] != ']' {
      assert s[i] == d[i];
    }
  }

  // ----- matching -----

  function Subst(s: Shape, u: Shape): Shape {
    match s
    case Scalar(_) => s
    case Slice(e, c) => Slice(Subst(e, u), c)
    case ManyPointer(e, c) => ManyPointer(Subst(e, u), c)
    case Array(e, n) => Array(Subst(e, u), n)
    case Param(_) => u
  }

  /** `t` is `s` with a shape for its parameter: a shape is a chain, so it has at most one. */
  ghost predicate Instance(s: Shape, t: Shape) {
    exists u :: t == Subst(s, u)
  }

  lemma {:induction false} NoParamsSubst(s: Shape, u: Shape)
    requires !HasParams(s)
    ensures Subst(s, u) == s
  {
    match s
    case Scalar(_) =>
    case Slice(e, _) => NoParamsSubst(e, u);
    case ManyPointer(e, _) => NoParamsSubst(e, u);
    case Array(e, _) => NoParamsSubst(e, u);
  }

  lemma {:induction false} NameInjective(a: BuiltinType, b: BuiltinType)
    requires Name(a) == Name(b)
    ensures a == b
  {
    var s, t := Name(a), Name(b);
    assert |s| == |t| && s[0] == t[0] && s[1] == t[1];
  }

  /** The key of a scalar is that of no other shape. */
  lemma ScalarKey(b: BuiltinType, t: Shape)
    ensures Key(t) == Name(b) <==> t == Scalar(b)
  {
    KeyHead(t);
    KeyHead(Scalar(b));
    if t.Scalar? && Key(t) == Name(b) {
      NameInjective(t.builtin, b);
    }
  }

  lemma PrefixesApart(t: Shape)
    ensures StartsWith(Key(t), "[]") <==> t.Slice?
    ensures StartsWith(Key(t), "[*]") <==> t.ManyPointer?
    ensures StartsWith(Key(t), "[") <==> t.Slice? || t.ManyPointer? || t.Array?
  {
    KeyHead(t);
    var k := Key(t);
    if t.Slice? {
      assert k[..2] == "[]";
    } else if t.ManyPointer? {
      assert k[..3] == "[*]";
    }
    if StartsWith(k, "[]") {
      assert k[1] == "[]"[1];
    }
    if StartsWith(k, "[*]") {
      assert k[1] == "[*]"[1];
    }
  }

  /** Where the parameter of `s` is bound already, it stands for what printed that way. */
  predicate Admits(bindings: seq<Binding>, s: Shape, u: Shape) {
    match s
    case Scalar(_) => true
    case Slice(e, _) => Admits(bindings, e, u)
    case ManyPointer(e, _) => Admits(bindings, e, u)
    case Array(e, _) => Admits(bindings, e, u)
    case Param(i) => Bound(bindings, i) == None || Bound(bindings, i) == Some(Key(u))
  }

  ghost predicate InstanceUnder(bindings: seq<Binding>, s: Shape, t: Shape) {
    exists u :: t == Subst(s, u) && Admits(bindings, s, u)
  }

  lemma {:induction false} NothingBound(s: Shape, u: Shape)
    ensures Admits([], s, u)
  {
    match s
    case Scalar(_) =>
    case Slice(e, _) => NothingBound(e, u);
    case ManyPointer(e, _) => NothingBound(e, u);
    case Array(e, _) => NothingBound(e, u);
    case Param(_) =>
  }

  /** With nothing bound, the matcher accepts a printed shape exactly when it is an instance of the
      pattern. */
  lemma MatchesInstance(s: Shape, t: Shape)
    ensures MatchesText(s, Key(t), []).ok <==> Instance(s, t)
  {
    MatchesKey(s, t, []);
    forall u ensures Admits([], s, u) {
      NothingBound(s, u);
    }
    hide MatchesText, Admits, Key;
  }

  /** The matcher accepts a printed shape exactly when it is an instance of the pattern that agrees with
      the slots bound already. */
  lemma {:induction false} MatchesKey(s: Shape, t: Shape, bindings: seq<Binding>)
    ensures MatchesText(s, Key(t), bindings).ok <==> InstanceUnder(bindings, s, t)
    decreases s
  {
    TrimKey(t);
    hide Key, Trim, StripConst, FindClose, Digits;
    match s
    case Scalar(b) =>
      ScalarKey(b, t);
      SubstScalar(bindings, b, t);
    case Slice(e, c) =>
      PrefixesApart(t);
      InstanceOfSlice(bindings, e, c, t);
      if t.Slice? {
        SliceKey(t);
        MatchesKey(e, t.element, bindings);
      }
    case ManyPointer(e, c) =>
      PrefixesApart(t);
      InstanceOfPointer(bindings, e, c, t);
      if t.ManyPointer? {
        SliceKey(t);
        MatchesKey(e, t.element, bindings);
      }
    case Array(e, n) =>
      PrefixesApart(t);
      InstanceOfArray(bindings, e, n, t);
      if t.Array? {
        ArrayKey(t);
        MatchesKey(e, t.element, bindings);
      } else if t.Slice? || t.ManyPointer? {
        NotDigits(t);
      }
    case Param(i) =>
      assert t == Subst(s, t) && (InstanceUnder(bindings, s, t) <==> Admits(bindings, s, t));
  }

  lemma SubstScalar(bindings: seq<Binding>, b: BuiltinType, t: Shape)
    ensures InstanceUnder(bindings, Scalar(b), t) <==> t == Scalar(b)
  {
    assert Subst(Scalar(b), t) == Scalar(b) && Admits(bindings, Scalar(b), t);
  }

  lemma InstanceOfSlice(bindings: seq<Binding>, e: Shape, c: bool, t: Shape)
    ensures InstanceUnder(bindings, Slice(e, c), t) <==>
              t.Slice? && t.isConst == c && InstanceUnder(bindings, e, t.element)
  {
    if t.Slice? && t.isConst == c && InstanceUnder(bindings, e, t.element) {
      var u :| t.element == Subst(e, u) && Admits(bindings, e, u);
      assert t == Subst(Slice(e, c), u) && Admits(bindings, Slice(e, c), u);
    }
    if InstanceUnder(bindings, Slice(e, c), t) {
      var u :| t == Subst(Slice(e, c), u) && Admits(bindings, Slice(e, c), u);
      assert t.element == Subst(e, u) && Admits(bindings, e, u);
    }
  }

  lemma InstanceOfPointer(bindings: seq<Binding>, e: Shape, c: bool, t: Shape)
    ensures InstanceUnder(bindings, ManyPointer(e, c), t) <==>
              t.ManyPointer? && t.isConst == c && InstanceUnder(bindings, e, t.element)
  {
    if t.ManyPointer? && t.isConst == c && InstanceUnder(bindings, e, t.element) {
      var u :| t.element == Subst(e, u) && Admits(bindings, e, u);
      assert t == Subst(ManyPointer(e, c), u) && Admits(bindings, ManyPointer(e, c), u);
    }
    if InstanceUnder(bindings, ManyPointer(e, c), t) {
      var u :| t == Subst(ManyPointer(e, c), u) && Admits(bindings, ManyPointer(e, c), u);
      assert t.element == Subst(e, u) && Admits(bindings, e, u);
    }
  }

  lemma InstanceOfArray(bindings: seq<Binding>, e: Shape, n: U64Length, t: Shape)
    ensures InstanceUnder(bindings, Array(e, n), t) <==> t.Array? && t.len == n && InstanceUnder(bindings, e, t.element)
  {
    if t.Array? && t.len == n && InstanceUnder(bindings, e, t.element) {
      var u :| t.element == Subst(e, u) && Admits(bindings, e, u);
      assert t == Subst(Array(e, n), u) && Admits(bindings, Array(e, n), u);
    }
    if InstanceUnder(bindings, Array(e, n), t) {
      var u :| t == Subst(Array(e, n), u) && Admits(bindings, Array(e, n), u);
      assert t.element == Subst(e, u) && Admits(bindings, e, u);
    }
  }

  lemma SliceKey(t: Shape)
    requires t.Slice? || t.ManyPointer?
    ensures StripConst(Key(t)[if t.Slice? then 2 else 3..]) == (t.isConst, Key(t.element))
  {
    StripConstKey(t.isConst, t.element);
    SliceKeyTail(t);
    hide *;
  }

  lemma SliceKeyTail(t: Shape)
    requires t.Slice? || t.ManyPointer?
    ensures Key(t)[if t.Slice? then 2 else 3..] == ConstPrefix(t.isConst) + Key(t.element)
  {
    var sign := if t.Slice? then "[]" else "[*]";
    assert Key(t) == sign + ConstPrefix(t.isConst) + Key(t.element);
    hide *;
    DropFirst(sign, ConstPrefix(t.isConst), Key(t.element));
  }

  lemma DropFirst(a: string, b: string, c: string)
    ensures (a + b + c)[|a|..] == b + c
  {
    assert a + b + c == a + (b + c);
  }

  lemma ArrayKey(t: Shape)
    requires t.Array?
    ensures var rest := Key(t)[1..];
            var close := FindClose(rest);
            && 0 < close < |rest| && AllDigits(rest[..close]) && Digits(rest[..close]) == t.len &&
               rest[close + 1..] == Key(t.element)
  {
    CloseOfKey(t.len, Key(t.element));
    DigitsDecimal(t.len);
    ArrayKeyTail(t);
    hide *;
  }

  lemma ArrayKeyTail(t: Shape)
    requires t.Array?
    ensures Key(t)[1..] == Decimal(t.len) + "]" + Key(t.element)
  {
    var open, close := "[", Decimal(t.len) + "]";
    assert Key(t) == open + Decimal(t.len) + "]" + Key(t.element);
    hide *;
    assert open + Decimal(t.len) + "]" == open + close;
    DropFirst(open, close, Key(t.element));
  }

  lemma NotDigits(t: Shape)
    requires t.Slice? || t.ManyPointer?
    ensures var rest := Key(t)[1..];
            FindClose(rest) == 0 || !AllDigits(rest[..FindClose(rest)])
  {
    var rest := Key(t)[1..];
    KeyHead(t);
    if t.ManyPointer? {
      assert rest[0] == '*';
      if FindClose(rest) > 0 {
        assert rest[..FindClose(rest)][0] == '*';
      }
    } else {
      assert rest[0] == ']';
    }
  }

  /** Printing tells all shapes apart. */
  lemma {:induction false} KeyInjective(s: Shape, t: Shape)
    requires Key(s) == Key(t)
    ensures s == t
  {
    KeyHead(s);
    KeyHead(t);
    match s
    case Scalar(b) => ScalarKey(b, t);
    case Param(i) =>
      assert Decimal(i) == Key(s)[1..] && Decimal(t.index) == Key(t)[1..];
      DigitsDecimal(i);
      DigitsDecimal(t.index);
    case Slice(e, _) =>
      SliceKey(s);
      SliceKey(t);
      hide StripConst;
      KeyInjective(e, t.element);
    case ManyPointer(e, _) =>
      SliceKey(s);
      SliceKey(t);
      hide StripConst;
      KeyInjective(e, t.element);
    case Array(e, n) =>
      ArrayKey(s);
      ArrayKey(t);
      hide FindClose;
      KeyInjective(e, t.element);
  }

  /** A pattern without parameters accepts exactly its own printed form. */
  lemma MatchesItself(s: Shape, t: Shape)
    requires !HasParams(s)
    ensures MatchesText(s, Unwrapped(Trim(Key(t))), []).ok <==> s == t
  {
    TrimKey(t);
    BareKey(t);
    BareStays(Key(t));
    MatchesInstance(s, t);
    forall u ensures Subst(s, u) == s {
      NoParamsSubst(s, u);
    }
    hide MatchesText, Unwrapped, Trim, Key;
    assert s == Subst(s, s);
  }

  /** The parameters that a shape uses, each once. */
  function UsedParams(s: Shape, out: seq<U32Index>): (r: seq<U32Index>)
  {
    match s
    case Scalar(_) => out
    case Slice(e, _) => UsedParams(e, out)
    case ManyPointer(e, _) => UsedParams(e, out)
    case Array(e, _) => UsedParams(e, out)
    case Param(i) => if i in out then out else out + [i]
  }

  /** A shape is a chain: it uses a parameter at most once, and one exactly when it has parameters; only then
      does the substituted shape matter. */
  lemma {:induction false} OneParam(s: Shape, u: Shape, v: Shape)
    ensures HasParams(s) <==> |UsedParams(s, [])| == 1
    ensures !HasParams(s) <==> UsedParams(s, []) == []
    ensures HasParams(s) && Subst(s, u) == Subst(s, v) ==> u == v
  {
    match s
    case Scalar(_) =>
    case Slice(e, _) => OneParam(e, u, v);
    case ManyPointer(e, _) => OneParam(e, u, v);
    case Array(e, _) => OneParam(e, u, v);
    case Param(_) =>
  }
}
