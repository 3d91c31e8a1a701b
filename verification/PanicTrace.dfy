/**
 The call trace that debug builds keep for a panic: a ring of 256 frame slots and a 32-bit depth, updated at
 the entry and the exit of every function that is not a drop implementation, and printed by a panic.
 */
module PanicTrace {
  import opened Wrappers
  import opened Arith

  const SLOTS: nat := 256
  const WORD: nat := 0x1_0000_0000
  const SIGN: nat := 0x8000_0000

  /** The location string of a frame; a slot that was never written is null. */
  type Frame = string
  type Slot = Option<Frame>

  datatype Fn = Fn(location: Frame, isDrop: bool)

  /** The memory of the emitted runtime: the slots and the bit pattern of the depth. */
  datatype Ring = Ring(slots: seq<Slot>, depth: nat)
  {
    ghost predicate Valid() {
      |slots| == SLOTS && depth < WORD
    }
  }

  function SlotOf(pattern: nat): (r: nat)
    ensures r < SLOTS && r == pattern % SLOTS
  {
    LowByte(pattern);
    BitAnd(pattern, SLOTS - 1)
  }

  lemma LowByte(a: nat)
    ensures BitAnd(a, SLOTS - 1) == a % SLOTS
  {
    assert Pow2(8) == SLOTS;
    MaskIsMod(a, 8);
  }

  /** The emitted code, one global array and one global counter. */
  class Tracer {
    const frames: array<Slot>
    var depth: nat

    ghost predicate Valid()
      reads this, frames
    {
      frames.Length == SLOTS && depth < WORD
    }

    ghost function Contents(): (r: Ring)
      reads this, frames
      requires Valid()
      ensures r.Valid()
    {
      Ring(frames[..], depth)
    }

    constructor ()
      ensures Valid() && fresh(frames) && Contents() == Machine([])
    {
      frames := new Slot[SLOTS](_ => None);
      depth := 0;
      new;
      assert frames[..] == seq(SLOTS, _ => None);
    }

    method Prologue(f: Fn)
      requires Valid()
      modifies this, frames
      ensures Valid() && Contents() == MachineStep(old(Contents()), Enter(f))
    {
      if f.isDrop {
        return;
      }
      frames[SlotOf(depth)] := Some(f.location);
      depth := (depth + 1) % WORD;
    }

    method Epilogue(f: Fn)
      requires Valid()
      modifies this
      ensures Valid() && Contents() == MachineStep(old(Contents()), Leave(f))
    {
      if f.isDrop {
        return;
      }
      depth := (depth - 1) % WORD;
    }

    /** The printing loop compares as signed numbers. */
    method PanicStack() returns (lines: seq<Slot>)
      requires Valid()
      ensures lines == Printed(Contents())
    {
      hide Cursor, SlotOf;
      var count := if Signed(depth) < SLOTS then Signed(depth) else SLOTS;
      lines := [];
      var i := 0;
      while i < count
        invariant 0 <= i && (count >= 0 ==> i <= count) && (count < 0 ==> i == 0)
        invariant |lines| == i && forall j :: 0 <= j < i ==> lines[j] == frames[SlotOf(Cursor(depth, j))]
      {
        var rev := Cursor(depth, i);
        lines := lines + [frames[SlotOf(rev)]];
        i := i + 1;
      }
      forall j | 0 <= j < i ensures lines[j] == Printed(Contents())[j] {
        LineSlot(depth, j);
      }
    }
  }

  /** The level that line `i` shows, in the machine's own arithmetic. */
  function Cursor(depth: nat, i: nat): nat {
    ((depth - 1) % WORD - i) % WORD
  }

  lemma LineSlot(depth: nat, i: nat)
    requires depth < WORD && i < LineCount(depth)
    ensures SlotOf(Cursor(depth, i)) == (depth - 1 - i) % SLOTS
  {
    hide SlotOf;
    var k := depth - 1 - i;
    assert 0 <= k < WORD;
    assert (depth - 1) % WORD == depth - 1;
    assert k % WORD == k;
  }

  function Signed(pattern: nat): int {
    if pattern < SIGN then pattern else pattern - WORD
  }

  function LineCount(depth: nat): nat {
    if depth >= SIGN then 0 else Min(depth, SLOTS)
  }

  /** What a panic prints, innermost frame first. */
  function Printed(m: Ring): (r: seq<Slot>)
    requires m.Valid()
    ensures |r| == LineCount(m.depth)
  {
    seq(LineCount(m.depth), i requires 0 <= i < LineCount(m.depth) => m.slots[(m.depth - 1 - i) % SLOTS])
  }

  // ----- runs -----

  datatype Event = Enter(f: Fn) | Leave(f: Fn)
  {
    predicate Traced() {
      !f.isDrop
    }
  }

  type Trace = seq<Event>

  function Front(tr: Trace): Trace
    requires tr != []
  {
    tr[..|tr| - 1]
  }

  function Last(tr: Trace): Event
    requires tr != []
  {
    tr[|tr| - 1]
  }

  function MachineStep(m: Ring, e: Event): (r: Ring)
    requires m.Valid()
    ensures r.Valid()
  {
    if e.f.isDrop then m
    else if e.Enter? then Ring(m.slots[SlotOf(m.depth) := Some(e.f.location)], (m.depth + 1) % WORD)
    else Ring(m.slots, (m.depth - 1) % WORD)
  }

  /** The emitted runtime's memory after a run. */
  function Machine(tr: Trace): (r: Ring)
    ensures r.Valid()
  {
    if tr == [] then Ring(seq(SLOTS, _ => None), 0) else MachineStep(Machine(Front(tr)), Last(tr))
  }

  /** A live call: which event entered it, its location, and how deep the run has gone since. */
  datatype Live = Live(entry: nat, location: Frame, deepest: nat)

  function Raise(calls: seq<Live>, depth: nat): (r: seq<Live>)
    ensures |r| == |calls|
    ensures forall k :: 0 <= k < |r| ==> r[k] == calls[k].(deepest := Max(calls[k].deepest, depth))
  {
    seq(|calls|, k requires 0 <= k < |calls| => calls[k].(deepest := Max(calls[k].deepest, depth)))
  }

  /** The live traced calls, outermost first. */
  function Calls(tr: Trace): (r: seq<Live>)
    ensures |r| <= |tr|
  {
    if tr == [] then [] else CallsStep(Calls(Front(tr)), Last(tr), |tr| - 1)
  }

  function CallsStep(calls: seq<Live>, e: Event, now: nat): (r: seq<Live>)
    ensures |r| <= |calls| + 1
  {
    if e.f.isDrop then calls
    else if e.Enter? then Raise(calls, |calls| + 1) + [Live(now, e.f.location, |calls| + 1)]
    else if calls == [] then [] else calls[..|calls| - 1]
  }

  /** Calls return only when they are live. */
  predicate WellFormed(tr: Trace) {
    tr == [] || (WellFormed(Front(tr)) && (Last(tr).Leave? && Last(tr).Traced() ==> Calls(Front(tr)) != []))
  }

  /** The last event that entered a traced call at a level with this residue. */
  function LastEntry(tr: Trace, residue: nat): (r: Option<nat>)
    ensures r.Some? ==> r.value < |tr| && tr[r.value].Enter?
  {
    if tr == [] then None
    else if Last(tr).Enter? && Last(tr).Traced() && |Calls(Front(tr))| % SLOTS == residue then Some(|tr| - 1)
    else LastEntry(Front(tr), residue)
  }

  lemma DepthStep(n: int)
    ensures (n % WORD + 1) % WORD == (n + 1) % WORD && (n % WORD - 1) % WORD == (n - 1) % WORD
    ensures n % WORD % SLOTS == n % SLOTS
  {
    NextMod(n, WORD);
    ModOfMod(n, SLOTS, WORD / SLOTS);
  }

  lemma NextMod(n: int, m: int)
    requires m > 1
    ensures (n % m + 1) % m == (n + 1) % m && (n % m - 1) % m == (n - 1) % m
  {
    assert n == n % m + n / m * m;
    ModShift(n % m + 1, n / m, m);
    ModShift(n % m - 1, n / m, m);
  }

  lemma LastStep(tr: Trace)
    requires tr != []
    ensures Machine(tr) == MachineStep(Machine(Front(tr)), Last(tr))
    ensures Calls(tr) == CallsStep(Calls(Front(tr)), Last(tr), |tr| - 1)
    ensures |Front(tr)| == |tr| - 1
  {
    hide MachineStep, CallsStep;
  }

  function Contents(tr: Trace, entry: Option<nat>): Slot
    requires entry.Some? ==> entry.value < |tr|
  {
    if entry.None? then None else Some(tr[entry.value].f.location)
  }

  /** The depth counts the live traced calls modulo the word, and every slot holds the location of the call
      that was last entered at a level with its residue, whether or not it is still live. */
  lemma {:induction false} LastEntryWins(tr: Trace, r: nat)
    requires WellFormed(tr) && r < SLOTS
    ensures Machine(tr).depth == |Calls(tr)| % WORD
    ensures Machine(tr).slots[r] == Contents(tr, LastEntry(tr, r))
    decreases |tr|
  {
    hide *;
    if tr == [] {
      NothingEntered(tr, r);
    } else {
      WellFormedFront(tr);
      LastStep(tr);
      LastEntryWins(Front(tr), r);
      DepthKept(Machine(Front(tr)), Calls(Front(tr)), Last(tr), |tr| - 1);
      SlotKept(tr, r);
    }
  }

  lemma NothingEntered(tr: Trace, r: nat)
    requires tr == [] && r < SLOTS
    ensures Machine(tr).depth == |Calls(tr)| % WORD && Machine(tr).slots[r] == Contents(tr, LastEntry(tr, r))
  {
  }

  lemma DepthKept(m: Ring, calls: seq<Live>, e: Event, now: nat)
    requires m.Valid() && m.depth == |calls| % WORD && (e.Leave? && e.Traced() ==> calls != [])
    ensures MachineStep(m, e).depth == |CallsStep(calls, e, now)| % WORD
  {
    DepthStep(|calls|);
    hide WORD, Raise;
  }

  lemma SlotKept(tr: Trace, r: nat)
    requires tr != [] && r < SLOTS && Machine(Front(tr)).depth == |Calls(Front(tr))| % WORD
    requires Machine(Front(tr)).slots[r] == Contents(Front(tr), LastEntry(Front(tr), r))
    ensures MachineStep(Machine(Front(tr)), Last(tr)).slots[r] == Contents(tr, LastEntry(tr, r))
  {
    DepthStep(|Calls(Front(tr))|);
    hide Machine, Calls, WORD;
  }

  /** The facts that tie a live call to the run that made it. */
  ghost predicate LiveAt(tr: Trace, k: nat)
    requires k < |Calls(tr)|
  {
    var c := Calls(tr)[k];
    && c.entry < |tr| && tr[c.entry] == Enter(Fn(c.location, false))
    && |Calls(tr[..c.entry])| == k
    && |Calls(tr)| <= c.deepest
    && (forall j :: c.entry < j <= |tr| ==> |Calls(tr[..j])| <= c.deepest)
    && (exists j :: c.entry < j <= |tr| && |Calls(tr[..j])| == c.deepest)
  }

  lemma {:induction false} LiveCalls(tr: Trace, k: nat)
    requires WellFormed(tr) && k < |Calls(tr)|
    ensures LiveAt(tr, k) && |Calls(tr)| <= Calls(tr)[k].deepest
    decreases |tr|
  {
    hide Machine, Calls, WellFormed, MachineStep, CallsStep;
    if tr == [] {
      NoCalls();
    } else {
      LastStep(tr);
      WellFormedFront(tr);
      var before := Calls(Front(tr));
      if k < |before| {
        LiveCalls(Front(tr), k);
        StillLive(before, Last(tr), |tr| - 1, k);
        LiveStep(tr, k);
      } else {
        NewlyLive(tr, k);
      }
    }
  }

  /** The history before the last event is the same in both runs. */
  lemma SamePrefix(tr: Trace, j: nat)
    requires tr != [] && j < |tr|
    ensures tr[..j] == Front(tr)[..j]
  {
  }

  lemma LiveStep(tr: Trace, k: nat)
    requires tr != [] && k < |Calls(tr)| && k < |Calls(Front(tr))| && LiveAt(Front(tr), k)
    requires Calls(tr) == CallsStep(Calls(Front(tr)), Last(tr), |tr| - 1)
    ensures LiveAt(tr, k)
  {
    hide Machine, Calls, WellFormed, MachineStep;
    var n := |tr| - 1;
    var b, c := Calls(Front(tr))[k], Calls(tr)[k];
    StillLive(Calls(Front(tr)), Last(tr), n, k);
    assert tr[..n + 1] == tr && tr[..n] == Front(tr);
    SamePrefix(tr, b.entry);
    forall j | c.entry < j <= |tr| ensures |Calls(tr[..j])| <= c.deepest {
      if j <= n {
        SamePrefix(tr, j);
      }
    }
    if c.deepest == b.deepest {
      var j :| b.entry < j <= n && |Calls(Front(tr)[..j])| == b.deepest;
      SamePrefix(tr, j);
      assert |Calls(tr[..j])| == c.deepest;
    } else {
      assert |Calls(tr[..n + 1])| == c.deepest;
    }
  }

  lemma NewlyLive(tr: Trace, k: nat)
    requires tr != [] && |Calls(Front(tr))| <= k < |Calls(tr)|
    requires Calls(tr) == CallsStep(Calls(Front(tr)), Last(tr), |tr| - 1)
    ensures LiveAt(tr, k)
  {
    hide Machine, Calls, WellFormed, MachineStep;
    var n := |tr| - 1;
    assert tr[..n + 1] == tr && tr[..n] == Front(tr);
    assert |Calls(tr[..n + 1])| == Calls(tr)[k].deepest;
  }

  /** A live call at level `k` was the last to enter its slot exactly when the run has not gone deeper than
      `k + 256` since. */
  lemma {:induction false} OwnSlot(tr: Trace, k: nat)
    requires WellFormed(tr) && k < |Calls(tr)|
    ensures LastEntry(tr, k % SLOTS) == Some(Calls(tr)[k].entry) <==> Calls(tr)[k].deepest <= k + SLOTS
    decreases |tr|
  {
    hide *;
    if tr == [] {
      NoCalls();
    } else {
      LastStep(tr);
      WellFormedFront(tr);
      if k < |Calls(Front(tr))| {
        OwnSlot(Front(tr), k);
        LiveCalls(Front(tr), k);
        SlotStep(tr, k);
      } else {
        SlotTaken(tr, k);
      }
    }
  }

  /** A live call keeps its slot unless the last event enters a call at a level of the same residue. */
  lemma SlotStep(tr: Trace, k: nat)
    requires tr != [] && k < |Calls(tr)| && k < |Calls(Front(tr))| && LiveAt(Front(tr), k)
    requires Calls(tr) == CallsStep(Calls(Front(tr)), Last(tr), |tr| - 1)
    requires |Calls(Front(tr))| <= Calls(Front(tr))[k].deepest
    requires LastEntry(Front(tr), k % SLOTS) == Some(Calls(Front(tr))[k].entry) <==>
               Calls(Front(tr))[k].deepest <= k + SLOTS
    ensures LastEntry(tr, k % SLOTS) == Some(Calls(tr)[k].entry) <==> Calls(tr)[k].deepest <= k + SLOTS
  {
    hide Machine, Calls, WellFormed, MachineStep, CallsStep, LastEntry, LiveAt, Raise;
    var before := Calls(Front(tr));
    var r := k % SLOTS;
    LastEntryStep(tr, r);
    StillLive(before, Last(tr), |tr| - 1, k);
    if |before| % SLOTS == r {
      SameSlot(k, |before|);
    } else {
      OtherSlot(k, |before|);
    }
    EntryEarlier(Front(tr), k);
  }

  lemma LastEntryStep(tr: Trace, r: nat)
    requires tr != []
    ensures LastEntry(tr, r) == if Last(tr).Enter? && Last(tr).Traced() && |Calls(Front(tr))| % SLOTS == r then
              Some(|tr| - 1) else LastEntry(Front(tr), r)
  {
    hide Calls;
  }

  lemma EntryEarlier(tr: Trace, k: nat)
    requires k < |Calls(tr)| && LiveAt(tr, k)
    ensures Calls(tr)[k].entry < |tr|
  {
    hide Calls;
  }

  lemma OtherSlot(k: nat, n: nat)
    requires n % SLOTS != k % SLOTS
    ensures n != k + SLOTS
  {
  }

  lemma SlotTaken(tr: Trace, k: nat)
    requires tr != [] && |Calls(Front(tr))| <= k < |Calls(tr)|
    requires Calls(tr) == CallsStep(Calls(Front(tr)), Last(tr), |tr| - 1)
    ensures LastEntry(tr, k % SLOTS) == Some(Calls(tr)[k].entry) && Calls(tr)[k].deepest <= k + SLOTS
  {
    hide Machine, Calls, WellFormed, MachineStep;
  }

  lemma SameSlot(k: nat, n: nat)
    requires k < n && n % SLOTS == k % SLOTS
    ensures n >= k + SLOTS
  {
  }

  lemma NoCalls()
    ensures Calls([]) == [] && WellFormed([])
  {
  }

  lemma WellFormedFront(tr: Trace)
    requires WellFormed(tr) && tr != []
    ensures WellFormed(Front(tr)) && (Last(tr).Leave? && Last(tr).Traced() ==> Calls(Front(tr)) != [])
  {
  }

  /** A step that a live call survives can only note a new depth. */
  lemma StillLive(calls: seq<Live>, e: Event, now: nat, k: nat)
    requires k < |calls| && k < |CallsStep(calls, e, now)|
    ensures CallsStep(calls, e, now)[k] ==
              calls[k].(deepest := if e.Enter? && e.Traced() then Max(calls[k].deepest, |calls| + 1)
                else calls[k].deepest)
  {
  }

  /** A live call whose slot was not overwritten is found there by its location. */
  lemma SlotHolds(tr: Trace, k: nat)
    requires WellFormed(tr) && k < |Calls(tr)| && Calls(tr)[k].deepest <= k + SLOTS
    ensures Machine(tr).slots[k % SLOTS] == Some(Calls(tr)[k].location)
  {
    OwnSlot(tr, k);
    LastEntryWins(tr, k % SLOTS);
    LiveCalls(tr, k);
    hide Machine, Calls, WellFormed, LastEntry;
  }

  /** The innermost calls that fit the ring, innermost first. */
  function Innermost(calls: seq<Live>): (r: seq<Slot>)
    ensures |r| == Min(|calls|, SLOTS)
  {
    seq(Min(|calls|, SLOTS), i requires 0 <= i < Min(|calls|, SLOTS) => Some(calls[|calls| - 1 - i].location))
  }

  predicate Kept(calls: seq<Live>) {
    forall k :: 0 <= k < |calls| && |calls| - SLOTS <= k ==> calls[k].deepest <= k + SLOTS
  }

  lemma LineOf(tr: Trace, k: nat)
    requires WellFormed(tr) && k < |Calls(tr)| < SIGN && |Calls(tr)| - SLOTS <= k
    ensures |Printed(Machine(tr))| == Min(|Calls(tr)|, SLOTS)
    ensures Printed(Machine(tr))[|Calls(tr)| - 1 - k] == Machine(tr).slots[k % SLOTS]
  {
    hide *;
    LastEntryWins(tr, 0);
    SmallDepth(|Calls(tr)|);
    LineIs(Machine(tr), |Calls(tr)| - 1 - k);
  }

  lemma SmallDepth(n: nat)
    requires n < SIGN
    ensures n % WORD == n && LineCount(n) == Min(n, SLOTS) && LineCount(n) == if n < SLOTS then n else SLOTS
  {
  }

  lemma LineIs(m: Ring, i: nat)
    requires m.Valid() && i < LineCount(m.depth)
    ensures Printed(m)[i] == m.slots[(m.depth - 1 - i) % SLOTS]
  {
  }

  /** A panic prints the innermost calls whenever none of them lost its slot. */
  lemma PrintsInnermost(tr: Trace)
    requires WellFormed(tr) && |Calls(tr)| < SIGN && Kept(Calls(tr))
    ensures Printed(Machine(tr)) == Innermost(Calls(tr))
  {
    hide Machine, Calls, WellFormed, LastEntry;
    var lines, calls := Printed(Machine(tr)), Calls(tr);
    LastEntryWins(tr, 0);
    assert |lines| == Min(|calls|, SLOTS);
    forall i | 0 <= i < |lines| ensures lines[i] == Innermost(calls)[i] {
      var k := |calls| - 1 - i;
      LineOf(tr, k);
      SlotHolds(tr, k);
    }
  }

  /** The location last entered at a level with the residue of this one. */
  function Entered(tr: Trace, level: nat): Slot {
    Contents(tr, LastEntry(tr, level % SLOTS))
  }

  /** What a panic prints after any run, innermost level first: for each level the location that was last
      entered at a level of its residue, as many as the depth pattern allows. */
  lemma PrintsLastEntries(tr: Trace)
    requires WellFormed(tr)
    ensures var n, lines := |Calls(tr)|, Printed(Machine(tr));
            && |lines| == LineCount(n % WORD) <= n
            && forall i :: 0 <= i < |lines| ==> lines[i] == Entered(tr, n - 1 - i)
  {
    hide *;
    LinesCounted(tr);
    forall i | 0 <= i < |Printed(Machine(tr))|
      ensures Printed(Machine(tr))[i] == Entered(tr, |Calls(tr)| - 1 - i)
    {
      LineEntered(tr, i);
    }
  }

  lemma LinesCounted(tr: Trace)
    requires WellFormed(tr)
    ensures |Printed(Machine(tr))| == LineCount(Machine(tr).depth) == LineCount(|Calls(tr)| % WORD) <= |Calls(tr)|
  {
    LastEntryWins(tr, 0);
    CountAtMost(|Calls(tr)|);
    hide Machine, Calls, WellFormed, LineCount, WORD;
  }

  function SlotAt(m: Ring, level: int): Slot
    requires m.Valid()
  {
    m.slots[level % SLOTS]
  }

  lemma LineEntered(tr: Trace, i: nat)
    requires WellFormed(tr) && i < LineCount(Machine(tr).depth) && i < |Calls(tr)|
    ensures Printed(Machine(tr))[i] == Entered(tr, |Calls(tr)| - 1 - i)
  {
    hide *;
    LineAt(Machine(tr), i);
    DepthShift(tr, i);
    EntryAt(tr, |Calls(tr)| - 1 - i);
  }

  lemma LineAt(m: Ring, i: nat)
    requires m.Valid() && i < LineCount(m.depth)
    ensures Printed(m)[i] == SlotAt(m, m.depth - 1 - i)
  {
  }

  lemma DepthShift(tr: Trace, i: nat)
    requires WellFormed(tr)
    ensures SlotAt(Machine(tr), Machine(tr).depth - 1 - i) == SlotAt(Machine(tr), |Calls(tr)| - 1 - i)
  {
    LastEntryWins(tr, 0);
    hide Machine, Calls, WellFormed, LastEntry, Contents;
    SameResidue(|Calls(tr)|, i);
  }

  lemma EntryAt(tr: Trace, level: nat)
    requires WellFormed(tr)
    ensures SlotAt(Machine(tr), level) == Entered(tr, level)
  {
    LastEntryWins(tr, level % SLOTS);
    hide Machine, Calls, WellFormed, LastEntry, Contents;
  }

  lemma CountAtMost(n: nat)
    ensures LineCount(n % WORD) <= n % WORD <= n
  {
  }

  lemma SameResidue(n: nat, i: nat)
    ensures (n % WORD - 1 - i) % SLOTS == (n - 1 - i) % SLOTS
  {
    ModOfMod(n, SLOTS, WORD / SLOTS);
    SameShift(n % WORD, n, 1 + i, SLOTS);
  }

  lemma SameShift(a: int, b: int, c: int, m: int)
    requires m > 0 && a % m == b % m
    ensures (a - c) % m == (b - c) % m
  {
    ModSub(a, c, m);
    ModSub(b, c, m);
  }

  /** The live call at level `k` kept its slot, or the call that took it has the same location, as a recursive
      one has. */
  predicate ShownRight(tr: Trace, k: nat)
    requires k < |Calls(tr)|
  {
    var c := Calls(tr)[k];
    c.deepest <= k + SLOTS || Entered(tr, k) == Some(c.location)
  }

  /** A panic prints exactly the innermost calls if and only if the depth pattern allows for all of them and each
      of them is shown right. */
  lemma PrintsInnermostIff(tr: Trace)
    requires WellFormed(tr)
    ensures Printed(Machine(tr)) == Innermost(Calls(tr)) <==>
            && LineCount(|Calls(tr)| % WORD) == Min(|Calls(tr)|, SLOTS)
            && forall k :: 0 <= k < |Calls(tr)| && |Calls(tr)| - SLOTS <= k ==> ShownRight(tr, k)
  {
    hide *;
    PrintsLastEntries(tr);
    SameLines(tr, Printed(Machine(tr)), Calls(tr));
    ShownAlike(tr);
    RingSize();
  }

  lemma RingSize()
    ensures SLOTS == 256
  {
  }

  lemma ShownAlike(tr: Trace)
    requires WellFormed(tr)
    ensures forall k :: 0 <= k < |Calls(tr)| ==> (ShownRight(tr, k) <==> Entered(tr, k) == Some(Calls(tr)[k].location))
  {
    hide *;
    forall k | 0 <= k < |Calls(tr)| ensures ShownRight(tr, k) <==> Entered(tr, k) == Some(Calls(tr)[k].location) {
      RightIs(tr, k);
    }
  }

  /** Two lists of lines are equal when they have one length and agree level by level. */
  lemma SameLines(tr: Trace, lines: seq<Slot>, calls: seq<Live>)
    requires |lines| <= |calls| && forall i :: 0 <= i < |lines| ==> lines[i] == Entered(tr, |calls| - 1 - i)
    ensures lines == Innermost(calls) <==>
            && |lines| == Min(|calls|, SLOTS)
            && forall k :: 0 <= k < |calls| && |calls| - SLOTS <= k ==> Entered(tr, k) == Some(calls[k].location)
  {
    hide Entered;
    var n := |calls|;
    if lines == Innermost(calls) {
      forall k | 0 <= k < n && n - SLOTS <= k ensures Entered(tr, k) == Some(calls[k].location) {
        assert lines[n - 1 - k] == Innermost(calls)[n - 1 - k];
      }
    }
  }

  lemma RightIs(tr: Trace, k: nat)
    requires WellFormed(tr) && k < |Calls(tr)|
    ensures ShownRight(tr, k) <==> Entered(tr, k) == Some(Calls(tr)[k].location)
  {
    hide Calls, Machine, WellFormed, Entered, SlotAt;
    EntryAt(tr, k);
    if Calls(tr)[k].deepest <= k + SLOTS {
      KeptSlot(tr, k);
    }
  }

  lemma KeptSlot(tr: Trace, k: nat)
    requires WellFormed(tr) && k < |Calls(tr)| && Calls(tr)[k].deepest <= k + SLOTS
    ensures SlotAt(Machine(tr), k) == Some(Calls(tr)[k].location)
  {
    hide Calls, Machine, WellFormed;
    SlotHolds(tr, k);
  }

  /** No two calls of the run have the same location. */
  predicate DistinctCalls(tr: Trace) {
    forall i, j :: 0 <= i < j < |tr| && tr[i].Enter? && tr[j].Enter? ==> tr[i].f.location != tr[j].f.location
  }

  /** With calls told apart, a panic prints the innermost calls exactly when none of them lost its slot. */
  lemma DistinctPrintsIff(tr: Trace)
    requires WellFormed(tr) && |Calls(tr)| < SIGN && DistinctCalls(tr)
    ensures Printed(Machine(tr)) == Innermost(Calls(tr)) <==> Kept(Calls(tr))
  {
    hide Machine, Calls, WellFormed, ShownRight;
    PrintsInnermostIff(tr);
    SmallDepth(|Calls(tr)|);
    forall k | 0 <= k < |Calls(tr)| ensures ShownRight(tr, k) <==> Calls(tr)[k].deepest <= k + SLOTS {
      DistinctRight(tr, k);
    }
    hide LineCount, Printed, Innermost;
  }

  /** A live call that lost its slot finds another call's location there. */
  lemma DistinctRight(tr: Trace, k: nat)
    requires WellFormed(tr) && DistinctCalls(tr) && k < |Calls(tr)|
    ensures ShownRight(tr, k) <==> Calls(tr)[k].deepest <= k + SLOTS
  {
    OwnSlot(tr, k);
    LiveCalls(tr, k);
    hide Machine, Calls, WellFormed;
  }

  /** A run that never goes deeper than the ring prints the whole call stack, innermost call first. */
  lemma ShallowRun(tr: Trace)
    requires WellFormed(tr) && forall j :: 0 <= j <= |tr| ==> |Calls(tr[..j])| <= SLOTS
    ensures |Printed(Machine(tr))| == |Calls(tr)|
    ensures forall i :: 0 <= i < |Calls(tr)| ==>
              Printed(Machine(tr))[i] == Some(Calls(tr)[|Calls(tr)| - 1 - i].location)
  {
    assert tr[..|tr|] == tr;
    hide Machine, Calls, WellFormed;
    forall k | 0 <= k < |Calls(tr)| ensures Calls(tr)[k].deepest <= k + SLOTS {
      LiveCalls(tr, k);
    }
    PrintsInnermost(tr);
  }

  /** A panic at the greatest depth so far prints exactly the innermost calls. */
  lemma HighWater(tr: Trace)
    requires WellFormed(tr) && |Calls(tr)| < SIGN
    requires forall j :: 0 <= j <= |tr| ==> |Calls(tr[..j])| <= |Calls(tr)|
    ensures Printed(Machine(tr)) == Innermost(Calls(tr))
  {
    hide Machine, Calls, WellFormed;
    forall k | 0 <= k < |Calls(tr)| && |Calls(tr)| - SLOTS <= k ensures Calls(tr)[k].deepest <= k + SLOTS {
      LiveCalls(tr, k);
    }
    PrintsInnermost(tr);
  }

  /** From 2^31 live calls on, the depth reads as negative and a panic prints nothing. */
  lemma TooDeepPrintsNothing(tr: Trace)
    requires WellFormed(tr)
    ensures Printed(Machine(tr)) == [] <==> |Calls(tr)| % WORD == 0 || |Calls(tr)| % WORD >= SIGN
  {
    LastEntryWins(tr, 0);
  }

  // ----- a stale line -----

  /** `n` nested calls, each with a location of its own. */
  function Dive(n: nat): (tr: Trace)
    ensures |tr| == n
    ensures forall i :: 0 <= i < n ==> tr[i] == Enter(Fn(Name(i), false))
  {
    seq(n, i requires 0 <= i < n => Enter(Fn(Name(i), false)))
  }

  function Name(i: nat): Frame {
    seq(i, _ => 'f')
  }

  lemma {:induction false} DiveCalls(n: nat)
    ensures WellFormed(Dive(n)) && |Calls(Dive(n))| == n
    ensures forall k :: 0 <= k < n ==> Calls(Dive(n))[k] == Live(k, Name(k), n)
  {
    if n > 0 {
      assert Front(Dive(n)) == Dive(n - 1);
      DiveCalls(n - 1);
    }
  }

  lemma {:induction false} Surface(tr: Trace, f: Fn, n: nat)
    requires WellFormed(tr) && n <= |Calls(tr)| && !f.isDrop
    ensures var back := tr + seq(n, _ => Leave(f));
            WellFormed(back) && Calls(back) == Calls(tr)[..|Calls(tr)| - n]
  {
    var back := tr + seq(n, _ => Leave(f));
    if n == 0 {
      assert back == tr;
    } else {
      assert Front(back) == tr + seq(n - 1, _ => Leave(f));
      Surface(tr, f, n - 1);
    }
  }

  /** After more than 256 nested calls and all returns but one, a panic in the outermost function names
      another one. */
  lemma StaleLine(n: nat, f: Fn)
    requires n > SLOTS && !f.isDrop
    ensures var tr := Dive(n) + seq(n - 1, _ => Leave(f));
            WellFormed(tr) && DistinctCalls(tr) && |Calls(tr)| == 1 && Printed(Machine(tr)) != Innermost(Calls(tr))
  {
    DiveCalls(n);
    var tr := Dive(n) + seq(n - 1, _ => Leave(f));
    Surface(Dive(n), f, n - 1);
    forall i, j | 0 <= i < j < |tr| && tr[i].Enter? && tr[j].Enter? ensures tr[i].f.location != tr[j].f.location {
      assert |Name(i)| != |Name(j)|;
    }
    hide Calls, Machine, WellFormed, Dive;
    DistinctPrintsIff(tr);
    assert Calls(tr)[0].deepest == n;
  }
}
