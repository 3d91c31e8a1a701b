/**
 The order in which the code generator fills the machine types of enums.  A pass over the pending enums
 fills those whose direct enum payloads are filled already; passes repeat while they make progress, and what
 is then left is filled regardless.
 */
module EnumWorklist {
  /** A payload type: another enum, an aggregate that holds its parts by value, or anything else. */
  datatype Ty = EnumTy(id: nat) | Aggregate(parts: seq<Ty>) | Leaf

  datatype Variant = Bare | Carries(payload: Ty)

  /** The registered enums. */
  type Table = map<nat, seq<Variant>>

  /** Payloads that are not enums themselves count as measurable, and an enum that is not registered is never
      filled. */
  predicate Measurable(table: Table, ty: nat, filled: set<nat>) {
    ty !in table || forall v :: v in table[ty] && v.Carries? && v.payload.EnumTy? ==> v.payload.id in filled
  }

  function Elems(s: seq<nat>): set<nat> {
    set x | x in s
  }

  predicate NoRepeats(s: seq<nat>) {
    forall i, j :: 0 <= i < j < |s| ==> s[i] != s[j]
  }

  /** The keys of the table, each once, in any order. */
  predicate Lists(keys: seq<nat>, table: Table) {
    NoRepeats(keys) && Elems(keys) == table.Keys
  }

  datatype Split = Split(done: seq<nat>, left: seq<nat>)

  /** One pass: an enum filled early in the pass counts for those after it. */
  function Pass(table: Table, pending: seq<nat>, filled: set<nat>): (r: Split)
    ensures |r.done| + |r.left| == |pending|
  {
    if pending == [] then Split([], [])
    else if Measurable(table, pending[0], filled) then
      var r := Pass(table, pending[1..], filled + {pending[0]});
      Split([pending[0]] + r.done, r.left)
    else
      var r := Pass(table, pending[1..], filled);
      Split(r.done, [pending[0]] + r.left)
  }

  /** Passes until one makes no progress. */
  function Passes(table: Table, pending: seq<nat>, filled: set<nat>): (r: Split)
    decreases |pending|
  {
    var p := Pass(table, pending, filled);
    if p.done == [] then Split([], p.left)
    else
      var r := Passes(table, p.left, filled + Elems(p.done));
      Split(p.done + r.done, r.left)
  }

  lemma PassAt(table: Table, pending: seq<nat>, i: nat, filled: set<nat>)
    requires i < |pending|
    ensures var p := pending[i];
            Pass(table, pending[i..], filled) ==
            if Measurable(table, p, filled) then
              var r := Pass(table, pending[i + 1..], filled + {p});
              Split([p] + r.done, r.left)
            else
              var r := Pass(table, pending[i + 1..], filled);
              Split(r.done, [p] + r.left)
  {
    hide Measurable;
    assert pending[i..][0] == pending[i] && pending[i..][1..] == pending[i + 1..];
  }

  /** The pass as it is made: what stays pending is collected while the filled set grows. */
  method RetainPending(table: Table, pending: seq<nat>, filled: set<nat>)
    returns (done: seq<nat>, kept: seq<nat>, now: set<nat>)
    ensures Split(done, kept) == Pass(table, pending, filled) && now == filled + Elems(done)
  {
    hide Pass, Measurable;
    done, kept, now := [], [], filled;
    assert pending[0..] == pending;
    for i := 0 to |pending|
      invariant now == filled + Elems(done)
      invariant done + Pass(table, pending[i..], now).done == Pass(table, pending, filled).done
      invariant kept + Pass(table, pending[i..], now).left == Pass(table, pending, filled).left
    {
      PassAt(table, pending, i, now);
      if Measurable(table, pending[i], now) {
        assert Elems(done + [pending[i]]) == Elems(done) + {pending[i]};
        OneMore(done, pending[i], Pass(table, pending[i + 1..], now + {pending[i]}).done);
        done := done + [pending[i]];
        now := now + {pending[i]};
      } else {
        OneMore(kept, pending[i], Pass(table, pending[i + 1..], now).left);
        kept := kept + [pending[i]];
      }
    }
    EmptyPass(table, now);
  }

  lemma OneMore(a: seq<nat>, x: nat, b: seq<nat>)
    ensures a + ([x] + b) == (a + [x]) + b
  {
  }

  lemma EmptyPass(table: Table, filled: set<nat>)
    ensures Pass(table, [], filled) == Split([], [])
  {
  }

  /** The filling loop: measured enums in order, then the leftovers. */
  method FillEnumLayouts(table: Table, keys: seq<nat>) returns (order: seq<nat>, measured: nat)
    requires Lists(keys, table)
    ensures measured <= |order|
    ensures Passes(table, keys, {}) == Split(order[..measured], order[measured..])
    ensures NoRepeats(order) && Elems(order) == table.Keys
  {
    hide Pass, Passes, Measurable, NoRepeats;
    var pending := keys;
    var filled: set<nat> := {};
    order := [];
    var progressed := true;
    while progressed
      invariant Passes(table, keys, {}) == var r := Passes(table, pending, filled); Split(order + r.done, r.left)
      invariant !progressed ==> Passes(table, pending, filled) == Split([], pending)
      decreases progressed, |pending|
    {
      var done, kept, now := RetainPending(table, pending, filled);
      PassesStep(table, pending, filled);
      progressed := done != [];
      ghost var rest := Passes(table, kept, now);
      assert order + (done + rest.done) == (order + done) + rest.done;
      if !progressed {
        PassNoop(table, pending, filled);
        assert now == filled && order + [] == order;
      }
      order, pending, filled := order + done, kept, now;
    }
    measured := |order|;
    order := order + pending;
    FillsAll(table, keys);
    assert order == order[..measured] + order[measured..];
  }

  lemma PassesStep(table: Table, pending: seq<nat>, filled: set<nat>)
    ensures var p := Pass(table, pending, filled);
            Passes(table, pending, filled) ==
            if p.done == [] then Split([], p.left)
            else
              var r := Passes(table, p.left, filled + Elems(p.done));
              Split(p.done + r.done, r.left)
  {
    hide Pass;
  }

  lemma FillsAll(table: Table, keys: seq<nat>)
    requires Lists(keys, table)
    ensures var r := Passes(table, keys, {}); NoRepeats(r.done + r.left) && Elems(r.done + r.left) == table.Keys
  {
    hide Pass, Passes;
    var r := Passes(table, keys, {});
    NoRepeatsDone(table, keys);
    FilledOnce(table, keys, {});
    Members(keys, r.done, r.left);
    forall t ensures t in Elems(r.done + r.left) <==> t in table {
      assert t in table <==> t in Elems(keys);
    }
  }

  lemma {:induction false} PassNoop(table: Table, pending: seq<nat>, filled: set<nat>)
    requires Pass(table, pending, filled).done == []
    ensures Pass(table, pending, filled).left == pending
    ensures forall t :: t in pending ==> !Measurable(table, t, filled)
  {
    if pending != [] {
      PassNoop(table, pending[1..], filled);
    }
  }

  // ----- each enum once -----

  lemma {:induction false} PassSplits(table: Table, pending: seq<nat>, filled: set<nat>)
    ensures var r := Pass(table, pending, filled); multiset(r.done) + multiset(r.left) == multiset(pending)
  {
    if pending != [] {
      assert pending == [pending[0]] + pending[1..];
      PassSplits(table, pending[1..], if Measurable(table, pending[0], filled) then filled + {pending[0]} else filled);
    }
  }

  /** Every enum is filled exactly once. */
  lemma {:induction false} FilledOnce(table: Table, pending: seq<nat>, filled: set<nat>)
    ensures var r := Passes(table, pending, filled); multiset(r.done) + multiset(r.left) == multiset(pending)
    decreases |pending|
  {
    PassSplits(table, pending, filled);
    var p := Pass(table, pending, filled);
    if p.done != [] {
      FilledOnce(table, p.left, filled + Elems(p.done));
    }
  }

  // ----- the order -----

  /** Each enum of `order` is measurable once `filled` and the ones before it are filled. */
  predicate Chain(table: Table, order: seq<nat>, filled: set<nat>) {
    order == [] || (Measurable(table, order[0], filled) && Chain(table, order[1..], filled + {order[0]}))
  }

  lemma {:induction false} ChainJoin(table: Table, a: seq<nat>, b: seq<nat>, filled: set<nat>)
    requires Chain(table, a, filled) && Chain(table, b, filled + Elems(a))
    ensures Chain(table, a + b, filled)
  {
    if a == [] {
      assert a + b == b && filled + Elems(a) == filled;
    } else {
      assert (a + b)[1..] == a[1..] + b;
      assert filled + Elems(a) == filled + {a[0]} + Elems(a[1..]) by {
        assert a == [a[0]] + a[1..];
      }
      ChainJoin(table, a[1..], b, filled + {a[0]});
    }
  }

  lemma {:induction false} PassChain(table: Table, pending: seq<nat>, filled: set<nat>)
    ensures Chain(table, Pass(table, pending, filled).done, filled)
  {
    if pending != [] {
      PassChain(table, pending[1..], if Measurable(table, pending[0], filled) then filled + {pending[0]} else filled);
    }
  }

  /** Passes fill in an order in which every enum follows its direct enum payloads, and stop only when no
      pending enum is measurable. */
  lemma {:induction false} PassesChain(table: Table, pending: seq<nat>, filled: set<nat>)
    ensures var r := Passes(table, pending, filled);
            Chain(table, r.done, filled) && forall t :: t in r.left ==> !Measurable(table, t, filled + Elems(r.done))
    decreases |pending|
  {
    var p := Pass(table, pending, filled);
    PassChain(table, pending, filled);
    if p.done == [] {
      PassNoop(table, pending, filled);
      assert filled + Elems([]) == filled;
    } else {
      var now := filled + Elems(p.done);
      PassesChain(table, p.left, now);
      var r := Passes(table, p.left, now);
      ChainJoin(table, p.done, r.done, filled);
      assert now + Elems(r.done) == filled + Elems(p.done + r.done);
    }
  }

  lemma {:induction false} ChainAt(table: Table, order: seq<nat>, filled: set<nat>, i: nat)
    requires Chain(table, order, filled) && i < |order|
    ensures Measurable(table, order[i], filled + Elems(order[..i]))
  {
    if i == 0 {
      assert filled + Elems(order[..0]) == filled;
    } else {
      ChainAt(table, order[1..], filled + {order[0]}, i - 1);
      assert order[..i] == [order[0]] + order[1..][..i - 1];
      assert filled + {order[0]} + Elems(order[1..][..i - 1]) == filled + Elems(order[..i]);
    }
  }

  // ----- the least fixpoint -----

  /** A set that holds every enum that is measurable by it. */
  ghost predicate Closed(table: Table, c: set<nat>) {
    forall t :: t in table && Measurable(table, t, c) ==> t in c
  }

  ghost predicate Least(table: Table, t: nat) {
    t in table && forall c: set<nat> :: Closed(table, c) ==> t in c
  }

  lemma {:induction false} ChainInside(table: Table, order: seq<nat>, filled: set<nat>, c: set<nat>)
    requires Chain(table, order, filled) && filled <= c && Closed(table, c) && Elems(order) <= table.Keys
    ensures Elems(order) <= c
  {
    if order != [] {
      assert order[0] in Elems(order) && Elems(order[1..]) <= Elems(order);
      MeasurableMore(table, order[0], filled, c);
      ChainInside(table, order[1..], filled + {order[0]}, c);
      assert Elems(order) == {order[0]} + Elems(order[1..]) by {
        assert order == [order[0]] + order[1..];
      }
    }
  }

  lemma MeasurableMore(table: Table, t: nat, a: set<nat>, b: set<nat>)
    requires Measurable(table, t, a) && a <= b
    ensures Measurable(table, t, b)
  {
  }

  lemma Members(keys: seq<nat>, done: seq<nat>, left: seq<nat>)
    requires multiset(done) + multiset(left) == multiset(keys)
    ensures forall t :: t in keys <==> t in done || t in left
  {
    forall t ensures t in keys <==> t in done || t in left {
      assert t in keys <==> t in multiset(keys);
      assert t in done <==> t in multiset(done);
      assert t in left <==> t in multiset(left);
    }
  }

  /** Whatever the order of the keys, the measured enums are those of the least fixpoint: the enums in every
      closed set.  The leftovers are its complement. */
  lemma MeasuredIsLeast(table: Table, keys: seq<nat>)
    requires Lists(keys, table)
    ensures var r := Passes(table, keys, {});
            forall t :: (t in r.done <==> Least(table, t)) && (t in r.left <==> t in table && !Least(table, t))
  {
    var r := Passes(table, keys, {});
    FilledOnce(table, keys, {});
    PassesChain(table, keys, {});
    Members(keys, r.done, r.left);
    var m := Elems(r.done);
    assert {} + m == m;
    assert Elems(keys) == table.Keys;
    assert Elems(r.done) <= table.Keys;
    forall t | t in table && Measurable(table, t, m) ensures t in m {
      assert t in Elems(keys);
    }
    assert Closed(table, m);
    forall c: set<nat> | Closed(table, c) ensures m <= c {
      ChainInside(table, r.done, {}, c);
    }
    forall t ensures (t in r.done <==> Least(table, t)) && (t in r.left <==> t in table && !Least(table, t)) {
      assert t in r.done <==> t in m;
      if t in r.left && t in r.done {
        MeasurableInEnd(table, r.done, t);
        assert false;
      }
      if t in table {
        assert t in Elems(keys);
      }
    }
  }

  lemma MeasurableInEnd(table: Table, order: seq<nat>, t: nat)
    requires Chain(table, order, {}) && t in order
    ensures Measurable(table, t, {} + Elems(order))
  {
    var i :| 0 <= i < |order| && order[i] == t;
    ChainAt(table, order, {}, i);
    MeasurableMore(table, t, {} + Elems(order[..i]), {} + Elems(order));
  }

  /** A rank that falls from every enum to its direct enum payloads, all of which are registered. */
  ghost predicate Ranked(table: Table, rank: map<nat, nat>) {
    && rank.Keys == table.Keys
    && forall t, v :: t in table && v in table[t] && v.Carries? && v.payload.EnumTy? ==>
                        v.payload.id in table && rank[v.payload.id] < rank[t]
  }

  lemma {:induction false} RankedIsLeast(table: Table, rank: map<nat, nat>, t: nat, c: set<nat>)
    requires Ranked(table, rank) && t in table && Closed(table, c)
    ensures t in c
    decreases rank[t]
  {
    forall v | v in table[t] && v.Carries? && v.payload.EnumTy? ensures v.payload.id in c {
      RankedIsLeast(table, rank, v.payload.id, c);
    }
  }

  function IndexOf(s: seq<nat>, x: nat): (i: nat)
    requires x in s
    ensures i < |s| && s[i] == x && forall k :: 0 <= k < i ==> s[k] != x
  {
    if s[0] == x then 0 else 1 + IndexOf(s[1..], x)
  }

  /** Nothing is left over exactly when the payload relation is acyclic over the registered enums. */
  lemma NoLeftoversIff(table: Table, keys: seq<nat>)
    requires Lists(keys, table)
    ensures Passes(table, keys, {}).left == [] <==> exists rank :: Ranked(table, rank)
  {
    hide Passes, Ranked, Lists;
    if rank :| Ranked(table, rank) {
      RankedLeavesNothing(table, keys, rank);
    }
    if Passes(table, keys, {}).left == [] {
      var rank := RankByPosition(table, keys);
    }
  }

  lemma RankedLeavesNothing(table: Table, keys: seq<nat>, rank: map<nat, nat>)
    requires Lists(keys, table) && Ranked(table, rank)
    ensures Passes(table, keys, {}).left == []
  {
    MeasuredIsLeast(table, keys);
    hide Passes, Lists;
    forall t | t in table ensures Least(table, t) {
      forall c: set<nat> | Closed(table, c) ensures t in c {
        RankedIsLeast(table, rank, t, c);
      }
    }
    SomeMember(Passes(table, keys, {}).left);
  }

  lemma SomeMember(s: seq<nat>)
    ensures s == [] || exists t :: t in s
  {
    if s != [] {
      assert s[0] in s;
    }
  }

  lemma RankByPosition(table: Table, keys: seq<nat>) returns (rank: map<nat, nat>)
    requires Lists(keys, table) && Passes(table, keys, {}).left == []
    ensures Ranked(table, rank)
  {
    var done := Passes(table, keys, {}).done;
    MeasuredIsLeast(table, keys);
    PassesChain(table, keys, {});
    hide Passes, Lists, Chain;
    forall t | t in table ensures t in done {
      assert t !in Passes(table, keys, {}).left;
    }
    rank := map t | t in table :: IndexOf(done, t);
    forall t, v | t in table && v in table[t] && v.Carries? && v.payload.EnumTy?
      ensures v.payload.id in table && rank[v.payload.id] < rank[t]
    {
      var i := IndexOf(done, t);
      ChainAt(table, done, {}, i);
      Earlier(done, v.payload.id, i);
      assert v.payload.id in done;
    }
  }

  lemma Earlier(s: seq<nat>, x: nat, i: nat)
    requires i <= |s| && x in s[..i]
    ensures x in s && IndexOf(s, x) < i
  {
    var k :| 0 <= k < i && s[..i][k] == x;
    assert s[k] == x;
  }

  // ----- enums inside aggregates -----

  /** The enums that a payload holds by value, at any depth. */
  function HeldBy(t: Ty): set<nat>
    decreases t, 1
  {
    match t
    case EnumTy(id) => {id}
    case Aggregate(parts) => HeldByAll(parts)
    case Leaf => {}
  }

  function HeldByAll(parts: seq<Ty>): set<nat>
    decreases parts, 0
  {
    if parts == [] then {} else HeldBy(parts[0]) + HeldByAll(parts[1..])
  }

  /** An aggregate holds what any of its parts holds. */
  lemma {:induction false} HeldByIff(parts: seq<Ty>, id: nat)
    ensures id in HeldBy(Aggregate(parts)) <==> exists k :: 0 <= k < |parts| && id in HeldBy(parts[k])
  {
    if parts != [] {
      HeldByIff(parts[1..], id);
      assert HeldBy(Aggregate(parts)) == HeldBy(parts[0]) + HeldBy(Aggregate(parts[1..]));
      assert forall k :: 0 < k < |parts| ==> parts[k] == parts[1..][k - 1];
    }
  }

  function Payloads(vs: seq<Variant>): seq<Ty> {
    if vs == [] then [] else (if vs[0].Carries? then [vs[0].payload] else []) + Payloads(vs[1..])
  }

  /** Enums with a payload are structs that get a body when they are filled; the others are plain tags. */
  predicate HasBody(table: Table, u: nat) {
    u in table && Payloads(table[u]) != []
  }

  /** With several payloads, filling an enum asks for the size of each of them. */
  predicate Measures(table: Table, t: nat) {
    t in table && |Payloads(table[t])| >= 2
  }

  /** A set that holds the enums in the payloads of `t` and, since an enum with a single payload has that
      payload's type in its body, the enums in the payloads of such members. */
  ghost predicate SizeClosed(table: Table, t: nat, c: set<nat>)
    requires t in table
  {
    && HeldByAll(Payloads(table[t])) <= c
    && forall x :: x in c && x in table && |Payloads(table[x])| == 1 ==> HeldBy(Payloads(table[x])[0]) <= c
  }

  /** The sizes that filling `t` asks for depend on the body of `u`. */
  ghost predicate Needs(table: Table, t: nat, u: nat) {
    Measures(table, t) && HasBody(table, u) && forall c: set<nat> :: SizeClosed(table, t, c) ==> u in c
  }

  predicate Direct(table: Table, t: nat, u: nat) {
    t in table && Carries(EnumTy(u)) in table[t]
  }

  /** A set that holds the direct enum payloads of `t` and of all its members. */
  ghost predicate Downward(table: Table, t: nat, d: set<nat>) {
    forall x, u :: (x == t || x in d) && Direct(table, x, u) ==> u in d
  }

  /** `u` is reached from `t` through direct enum payloads. */
  ghost predicate Below(table: Table, t: nat, u: nat) {
    forall d: set<nat> :: Downward(table, t, d) ==> u in d
  }

  predicate Before(order: seq<nat>, u: nat, t: nat) {
    exists i, j :: 0 <= i < j < |order| && order[i] == u && order[j] == t
  }

  /** No payload is measured before the enums in it have bodies. */
  ghost predicate BodiesFirst(table: Table, keys: seq<nat>) {
    var order := Passes(table, keys, {}).done + Passes(table, keys, {}).left;
    forall t, u :: t in order && Needs(table, t, u) ==> Before(order, u, t)
  }

  /** A needed enum is reached through direct payloads or, where the needing enum is a leftover, is none. */
  ghost predicate Steered(table: Table, t: nat, u: nat) {
    if Least(table, t) then Below(table, t, u) else Least(table, u)
  }

  /** Only direct payloads steer the order: no payload is measured too early, in any order of the keys, exactly
      when each needed enum is reached through direct payloads; among leftovers none may need another. */
  lemma BodiesFirstIff(table: Table, keys: seq<nat>)
    requires Lists(keys, table)
    ensures (forall ks :: Lists(ks, table) ==> BodiesFirst(table, ks)) <==>
            (forall t, u :: Needs(table, t, u) ==> Steered(table, t, u))
  {
    if forall t, u :: Needs(table, t, u) ==> Steered(table, t, u) {
      forall ks | Lists(ks, table) ensures BodiesFirst(table, ks) {
        SteeredFirst(table, ks);
      }
    }
    hide Passes, BodiesFirst, Lists, Needs, Least, Below;
    forall t, u | Needs(table, t, u) && !Steered(table, t, u)
      ensures exists ks :: Lists(ks, table) && !BodiesFirst(table, ks)
    {
      var ks := MeasuredTooEarly(table, keys, t, u);
    }
  }

  // ----- one given order of the keys -----

  /** The pass with number `n` or an earlier one fills `t`: each direct enum payload that comes before `t` among
      the keys must be filled by then, and each other one by the pass before. */
  predicate FilledBy(table: Table, keys: seq<nat>, t: nat, n: nat)
    requires t in keys
    decreases n, IndexOf(keys, t)
  {
    t in table && forall v :: v in table[t] && v.Carries? && v.payload.EnumTy? ==>
      var u := v.payload.id;
      u in keys &&
      if IndexOf(keys, u) < IndexOf(keys, t) then FilledBy(table, keys, u, n)
      else n > 0 && FilledBy(table, keys, u, n - 1)
  }

  /** `u` is filled in an earlier pass, or in the same one and comes earlier among the keys; what no pass fills
      is filled last. */
  ghost predicate FilledEarlier(table: Table, keys: seq<nat>, u: nat, t: nat) {
    && u in keys && t in keys
    && if forall n: nat :: FilledBy(table, keys, u, n) <==> FilledBy(table, keys, t, n)
       then IndexOf(keys, u) < IndexOf(keys, t)
       else exists n: nat :: FilledBy(table, keys, u, n) && !FilledBy(table, keys, t, n)
  }

  /** What the first `n` passes fill. */
  function FilledIn(table: Table, keys: seq<nat>, n: nat): set<nat> {
    set x | x in keys && n > 0 && FilledBy(table, keys, x, n - 1)
  }

  /** What is filled when the next pass has come to key `i`. */
  function FilledAt(table: Table, keys: seq<nat>, n: nat, i: nat): set<nat>
    requires i <= |keys|
  {
    FilledIn(table, keys, n) + set x | x in keys[..i] && x in keys && FilledBy(table, keys, x, n)
  }

  function Pending(table: Table, keys: seq<nat>, n: nat): set<nat> {
    Elems(keys) - FilledIn(table, keys, n)
  }

  lemma {:induction false} StaysFilled(table: Table, keys: seq<nat>, t: nat, n: nat)
    requires t in keys && FilledBy(table, keys, t, n)
    ensures FilledBy(table, keys, t, n + 1)
    decreases n, IndexOf(keys, t)
  {
    forall v | v in table[t] && v.Carries? && v.payload.EnumTy?
      ensures var u := v.payload.id;
              u in keys && FilledBy(table, keys, u, if IndexOf(keys, u) < IndexOf(keys, t) then n + 1 else n)
    {
      var u := v.payload.id;
      if IndexOf(keys, u) < IndexOf(keys, t) {
        StaysFilled(table, keys, u, n);
      } else {
        StaysFilled(table, keys, u, n - 1);
      }
    }
  }

  lemma {:induction false} FilledFrom(table: Table, keys: seq<nat>, t: nat, m: nat, n: nat)
    requires t in keys && m <= n && FilledBy(table, keys, t, m)
    ensures FilledBy(table, keys, t, n)
    decreases n - m
  {
    hide FilledBy;
    if m < n {
      StaysFilled(table, keys, t, m);
      FilledFrom(table, keys, t, m + 1, n);
    }
  }

  lemma IndexAt(keys: seq<nat>, i: nat)
    requires NoRepeats(keys) && i < |keys|
    ensures IndexOf(keys, keys[i]) == i
  {
  }

  /** When a pass comes to a key, the enum is measurable exactly when this pass or an earlier one fills it. */
  lemma MeasurableIs(table: Table, keys: seq<nat>, n: nat, i: nat)
    requires Lists(keys, table) && i < |keys|
    ensures Measurable(table, keys[i], FilledAt(table, keys, n, i)) <==> FilledBy(table, keys, keys[i], n)
  {
    var t := keys[i];
    IndexAt(keys, i);
    assert t in Elems(keys);
    forall u ensures u in FilledAt(table, keys, n, i) <==> ReadyFor(table, keys, u, t, n) {
      EntryReady(table, keys, n, i, u);
    }
    hide FilledAt;
  }

  predicate ReadyFor(table: Table, keys: seq<nat>, u: nat, t: nat, n: nat)
    requires t in keys
  {
    u in keys &&
    if IndexOf(keys, u) < IndexOf(keys, t) then FilledBy(table, keys, u, n)
    else n > 0 && FilledBy(table, keys, u, n - 1)
  }

  lemma EntryReady(table: Table, keys: seq<nat>, n: nat, i: nat, u: nat)
    requires NoRepeats(keys) && i < |keys|
    ensures u in FilledAt(table, keys, n, i) <==> ReadyFor(table, keys, u, keys[i], n)
  {
    hide FilledBy;
    IndexAt(keys, i);
    if u in keys {
      AmongFirst(keys, i, u);
      if n > 0 && FilledBy(table, keys, u, n - 1) {
        StaysFilled(table, keys, u, n - 1);
      }
    }
  }

  lemma AmongFirst(keys: seq<nat>, i: nat, u: nat)
    requires NoRepeats(keys) && i <= |keys| && u in keys
    ensures u in keys[..i] <==> IndexOf(keys, u) < i
  {
    var k := IndexOf(keys, u);
    assert k < i ==> keys[..i][k] == u;
    if u in keys[..i] {
      var j :| 0 <= j < i && keys[..i][j] == u;
      IndexAt(keys, j);
    }
  }

  /** From key `i` on, a pass fills what the recursion says and leaves the rest, both in the order of the keys. */
  lemma {:induction false} PassFills(table: Table, keys: seq<nat>, n: nat, i: nat)
    requires Lists(keys, table) && i <= |keys|
    ensures Pass(table, Only(keys[i..], Pending(table, keys, n)), FilledAt(table, keys, n, i)) ==
            Split(Only(keys[i..], FilledIn(table, keys, n + 1) - FilledIn(table, keys, n)),
                  Only(keys[i..], Pending(table, keys, n + 1)))
    decreases |keys| - i
  {
    hide Pass, FilledAt, FilledIn, Pending, Lists, Measurable, Only;
    var now := FilledAt(table, keys, n, i);
    OnlyFrom(keys, i, Pending(table, keys, n));
    OnlyFrom(keys, i, FilledIn(table, keys, n + 1) - FilledIn(table, keys, n));
    OnlyFrom(keys, i, Pending(table, keys, n + 1));
    if i == |keys| {
      EmptyPass(table, now);
    } else {
      var t := keys[i];
      var rest := Only(keys[i + 1..], Pending(table, keys, n));
      FilledNext(table, keys, n, i);
      MeasurableIs(table, keys, n, i);
      PassFills(table, keys, n, i + 1);
      assert now + {} == now;
      if t in Pending(table, keys, n) {
        PassCons(table, t, rest, now);
      } else {
        assert now + {t} == now;
      }
    }
  }

  lemma OnlyFrom(keys: seq<nat>, i: nat, d: set<nat>)
    requires i <= |keys|
    ensures Only(keys[i..], d) ==
            if i == |keys| then []
            else if keys[i] in d then [keys[i]] + Only(keys[i + 1..], d)
            else Only(keys[i + 1..], d)
  {
    if i < |keys| {
      assert keys[i..][0] == keys[i] && keys[i..][1..] == keys[i + 1..];
    }
  }

  lemma PassCons(table: Table, t: nat, rest: seq<nat>, filled: set<nat>)
    ensures Pass(table, [t] + rest, filled) ==
            if Measurable(table, t, filled) then
              var r := Pass(table, rest, filled + {t});
              Split([t] + r.done, r.left)
            else
              var r := Pass(table, rest, filled);
              Split(r.done, [t] + r.left)
  {
    hide Measurable;
    assert ([t] + rest)[1..] == rest;
  }

  lemma FilledNext(table: Table, keys: seq<nat>, n: nat, i: nat)
    requires i < |keys|
    ensures var t := keys[i];
            && FilledAt(table, keys, n, i + 1) ==
               FilledAt(table, keys, n, i) + (if FilledBy(table, keys, t, n) then {t} else {})
            && (t in FilledIn(table, keys, n + 1) <==> FilledBy(table, keys, t, n))
            && (t in FilledIn(table, keys, n) ==> t in FilledIn(table, keys, n + 1) && t in FilledAt(table, keys, n, i))
            && (t in Pending(table, keys, n) <==> t !in FilledIn(table, keys, n))
            && (t in Pending(table, keys, n + 1) <==> t !in FilledIn(table, keys, n + 1))
  {
    var t := keys[i];
    assert keys[..i + 1] == keys[..i] + [t];
    if n > 0 && FilledBy(table, keys, t, n - 1) {
      StaysFilled(table, keys, t, n - 1);
    }
    hide FilledBy;
  }

  /** Once a pass fills nothing, no later one does. */
  lemma {:induction false} Stuck(table: Table, keys: seq<nat>, t: nat, n: nat, m: nat)
    requires t in keys && n <= m && FilledIn(table, keys, n + 1) == FilledIn(table, keys, n)
    ensures FilledBy(table, keys, t, m) ==> t in FilledIn(table, keys, n)
    decreases m, IndexOf(keys, t)
  {
    if m == n {
      assert FilledBy(table, keys, t, n) ==> t in FilledIn(table, keys, n + 1);
    } else if FilledBy(table, keys, t, m) {
      forall v | v in table[t] && v.Carries? && v.payload.EnumTy?
        ensures ReadyFor(table, keys, v.payload.id, t, n)
      {
        var u := v.payload.id;
        Stuck(table, keys, u, n, if IndexOf(keys, u) < IndexOf(keys, t) then m else m - 1);
        assert n > 0 && FilledBy(table, keys, u, n - 1);
        StaysFilled(table, keys, u, n - 1);
      }
      assert FilledBy(table, keys, t, n);
      assert t in FilledIn(table, keys, n + 1);
    }
  }

  lemma BeforeJoin(a: seq<nat>, b: seq<nat>, u: nat, t: nat)
    requires NoRepeats(a + b) && (u in a || u in b) && (t in a || t in b)
    ensures u in a ==> u !in b
    ensures t in a ==> t !in b
    ensures Before(a + b, u, t) <==>
            if u in a then t in b || Before(a, u, t) else t in b && Before(b, u, t)
  {
    var s := a + b;
    forall i, j | 0 <= i < |a| && 0 <= j < |b| ensures a[i] != b[j] {
      assert s[i] == a[i] && s[|a| + j] == b[j];
    }
    if Before(s, u, t) {
      var i, j :| 0 <= i < j < |s| && s[i] == u && s[j] == t;
      if j < |a| {
        assert a[i] == u && a[j] == t;
      } else {
        assert b[j - |a|] == t;
        if i < |a| {
          assert a[i] == u;
        } else {
          assert b[i - |a|] == u;
        }
      }
    }
    if u in a && t in b {
      var i :| 0 <= i < |a| && a[i] == u;
      var j :| 0 <= j < |b| && b[j] == t;
      assert s[i] == u && s[|a| + j] == t;
    }
    if Before(a, u, t) {
      var i, j :| 0 <= i < j < |a| && a[i] == u && a[j] == t;
      assert s[i] == u && s[j] == t;
    }
    if Before(b, u, t) {
      var i, j :| 0 <= i < j < |b| && b[i] == u && b[j] == t;
      assert s[|a| + i] == u && s[|a| + j] == t;
    }
  }

  lemma {:induction false} BeforeOnly(keys: seq<nat>, d: set<nat>, u: nat, t: nat)
    requires NoRepeats(keys) && u in keys && t in keys && u in d && t in d
    ensures Before(Only(keys, d), u, t) <==> IndexOf(keys, u) < IndexOf(keys, t)
  {
    var k, rest := keys[0], keys[1..];
    NoRepeatsStep(keys);
    var r := Only(rest, d);
    hide NoRepeats;
    if k in d {
      HeadBefore(k, r, u, t);
    }
    if u != k && t != k {
      BeforeOnly(rest, d, u, t);
    }
  }

  lemma HeadBefore(k: nat, r: seq<nat>, u: nat, t: nat)
    requires k !in r
    ensures Before([k] + r, u, t) <==> if u == k then t in r else Before(r, u, t)
  {
    var s := [k] + r;
    if Before(s, u, t) {
      var i, j :| 0 <= i < j < |s| && s[i] == u && s[j] == t;
      assert r[j - 1] == t;
      if i > 0 {
        assert r[i - 1] == u;
      }
    }
    if u == k && t in r {
      var j :| 0 <= j < |r| && r[j] == t;
      assert s[0] == u && s[j + 1] == t;
    }
    if Before(r, u, t) {
      var i, j :| 0 <= i < j < |r| && r[i] == u && r[j] == t;
      assert s[i + 1] == u && s[j + 1] == t;
    }
  }

  /** Two enums of one pass, or two that no pass fills, are filled by the same passes. */
  lemma SamePass(table: Table, keys: seq<nat>, n: nat, u: nat, t: nat)
    requires u in keys && t in keys && u in Pending(table, keys, n) && t in Pending(table, keys, n)
    requires || (FilledBy(table, keys, u, n) && FilledBy(table, keys, t, n))
             || FilledIn(table, keys, n + 1) == FilledIn(table, keys, n)
    ensures FilledEarlier(table, keys, u, t) <==> IndexOf(keys, u) < IndexOf(keys, t)
  {
    hide FilledBy;
    forall m: nat ensures FilledBy(table, keys, u, m) <==> FilledBy(table, keys, t, m) {
      if FilledBy(table, keys, u, n) && FilledBy(table, keys, t, n) {
        if m >= n {
          FilledFrom(table, keys, u, n, m);
          FilledFrom(table, keys, t, n, m);
        } else {
          NotBefore(table, keys, n, u, m);
          NotBefore(table, keys, n, t, m);
        }
      } else {
        NeverFilled(table, keys, n, u, m);
        NeverFilled(table, keys, n, t, m);
      }
    }
  }

  lemma NotBefore(table: Table, keys: seq<nat>, n: nat, u: nat, m: nat)
    requires u in keys && u in Pending(table, keys, n) && m < n
    ensures !FilledBy(table, keys, u, m)
  {
    hide FilledBy;
    if FilledBy(table, keys, u, m) {
      FilledFrom(table, keys, u, m, n - 1);
      assert false;
    }
  }

  lemma NeverFilled(table: Table, keys: seq<nat>, n: nat, u: nat, m: nat)
    requires u in keys && u in Pending(table, keys, n)
    requires FilledIn(table, keys, n + 1) == FilledIn(table, keys, n)
    ensures !FilledBy(table, keys, u, m)
  {
    hide FilledBy;
    if m < n {
      NotBefore(table, keys, n, u, m);
    } else {
      Stuck(table, keys, u, n, m);
    }
  }

  /** What the pass with number `n` fills comes before what it leaves. */
  lemma OtherPass(table: Table, keys: seq<nat>, n: nat, u: nat, t: nat)
    requires u in keys && t in keys && u in Pending(table, keys, n) && t in Pending(table, keys, n)
    requires FilledBy(table, keys, u, n) && !FilledBy(table, keys, t, n)
    ensures FilledEarlier(table, keys, u, t) && !FilledEarlier(table, keys, t, u)
  {
    hide FilledBy;
    forall m: nat ensures !(FilledBy(table, keys, t, m) && !FilledBy(table, keys, u, m)) {
      if m >= n {
        FilledFrom(table, keys, u, n, m);
      } else {
        NotBefore(table, keys, n, t, m);
      }
    }
  }

  /** From any pass on, the order in which enums are filled is the order of the recursion. */
  lemma {:induction false} PassesOrder(table: Table, keys: seq<nat>, n: nat, u: nat, t: nat)
    requires Lists(keys, table) && u in keys && t in keys
    requires u in Pending(table, keys, n) && t in Pending(table, keys, n)
    ensures var r := Passes(table, Only(keys, Pending(table, keys, n)), FilledIn(table, keys, n));
            Before(r.done + r.left, u, t) <==> FilledEarlier(table, keys, u, t)
    decreases |Only(keys, Pending(table, keys, n))|
  {
    hide *;
    var pending, filled := Only(keys, Pending(table, keys, n)), FilledIn(table, keys, n);
    var now := FilledIn(table, keys, n + 1) - filled;
    var left := Only(keys, Pending(table, keys, n + 1));
    OnePass(table, keys, n);
    PassesStep(table, pending, filled);
    KeysOnce(table, keys);
    PassOf(table, keys, n, u);
    PassOf(table, keys, n, t);
    var p := Pass(table, pending, filled);
    if p.done == [] {
      NothingFilled(table, keys, n);
      SamePass(table, keys, n, u, t);
      BeforeOnly(keys, Pending(table, keys, n + 1), u, t);
      NothingInFront(p.left);
    } else {
      var r := Passes(table, left, FilledIn(table, keys, n + 1));
      var later := r.done + r.left;
      AppendBoth(p.done, r.done, r.left);
      RestOnce(table, keys, n);
      LaterMembers(table, left, FilledIn(table, keys, n + 1));
      BeforeJoin(p.done, later, u, t);
      if FilledBy(table, keys, u, n) && FilledBy(table, keys, t, n) {
        SamePass(table, keys, n, u, t);
        BeforeOnly(keys, now, u, t);
      } else if FilledBy(table, keys, u, n) {
        OtherPass(table, keys, n, u, t);
      } else if FilledBy(table, keys, t, n) {
        OtherPass(table, keys, n, t, u);
      } else {
        PassesOrder(table, keys, n + 1, u, t);
      }
    }
  }

  /** One pass over what is pending, and what it adds up to. */
  lemma OnePass(table: Table, keys: seq<nat>, n: nat)
    requires Lists(keys, table)
    ensures var filled := FilledIn(table, keys, n);
            var p := Pass(table, Only(keys, Pending(table, keys, n)), filled);
            && p.done == Only(keys, FilledIn(table, keys, n + 1) - filled)
            && p.left == Only(keys, Pending(table, keys, n + 1))
            && filled + Elems(p.done) == FilledIn(table, keys, n + 1)
            && |p.done| + |p.left| == |Only(keys, Pending(table, keys, n))|
  {
    hide *;
    FirstKey(table, keys, n);
    PassFills(table, keys, n, 0);
    FillsUp(table, keys, n);
    PassSize(table, Only(keys, Pending(table, keys, n)), FilledIn(table, keys, n));
  }

  lemma PassSize(table: Table, pending: seq<nat>, filled: set<nat>)
    ensures |Pass(table, pending, filled).done| + |Pass(table, pending, filled).left| == |pending|
  {
  }

  lemma FirstKey(table: Table, keys: seq<nat>, n: nat)
    ensures keys[0..] == keys && FilledAt(table, keys, n, 0) == FilledIn(table, keys, n)
  {
    hide FilledIn;
  }

  lemma FillsUp(table: Table, keys: seq<nat>, n: nat)
    ensures var filled, next := FilledIn(table, keys, n), FilledIn(table, keys, n + 1);
            filled + Elems(Only(keys, next - filled)) == next
  {
    var filled, next := FilledIn(table, keys, n), FilledIn(table, keys, n + 1);
    forall x | x in filled ensures x in next {
      StaysFilled(table, keys, x, n - 1);
    }
    assert forall x :: x in next ==> x in keys;
    hide FilledIn, FilledBy;
    assert Elems(Only(keys, next - filled)) == next - filled;
  }

  lemma KeysOnce(table: Table, keys: seq<nat>)
    requires Lists(keys, table)
    ensures NoRepeats(keys)
  {
  }

  lemma PassOf(table: Table, keys: seq<nat>, n: nat, u: nat)
    requires u in keys && u in Pending(table, keys, n)
    ensures var now := FilledIn(table, keys, n + 1) - FilledIn(table, keys, n);
            && (FilledBy(table, keys, u, n) <==> u in now && u in Only(keys, now))
            && (FilledBy(table, keys, u, n) <==>
                u !in Pending(table, keys, n + 1) && u !in Only(keys, Pending(table, keys, n + 1)))
            && (u in Pending(table, keys, n + 1) <==> u in Only(keys, Pending(table, keys, n + 1)))
  {
    hide FilledBy, Only;
  }

  lemma NothingFilled(table: Table, keys: seq<nat>, n: nat)
    requires Only(keys, FilledIn(table, keys, n + 1) - FilledIn(table, keys, n)) == []
    ensures FilledIn(table, keys, n + 1) == FilledIn(table, keys, n)
  {
    var now := FilledIn(table, keys, n + 1) - FilledIn(table, keys, n);
    forall x ensures x in FilledIn(table, keys, n + 1) <==> x in FilledIn(table, keys, n) {
      assert x in now ==> x in Only(keys, now);
      if x in FilledIn(table, keys, n) {
        StaysFilled(table, keys, x, n - 1);
      }
    }
  }

  lemma NothingInFront(s: seq<nat>)
    ensures [] + s == s
  {
  }

  lemma AppendBoth(a: seq<nat>, b: seq<nat>, c: seq<nat>)
    ensures (a + b) + c == a + (b + c)
  {
  }

  lemma LaterMembers(table: Table, pending: seq<nat>, filled: set<nat>)
    ensures var r := Passes(table, pending, filled); forall x :: x in r.done + r.left <==> x in pending
  {
    FilledOnce(table, pending, filled);
    var r := Passes(table, pending, filled);
    Members(pending, r.done, r.left);
    hide Passes;
  }

  /** What is still to be filled, each once. */
  lemma RestOnce(table: Table, keys: seq<nat>, n: nat)
    requires Lists(keys, table)
    ensures var r := Passes(table, Only(keys, Pending(table, keys, n + 1)), FilledIn(table, keys, n + 1));
            NoRepeats(Only(keys, FilledIn(table, keys, n + 1) - FilledIn(table, keys, n)) + (r.done + r.left))
  {
    var filled := FilledIn(table, keys, n + 1);
    var a, left := Only(keys, filled - FilledIn(table, keys, n)), Only(keys, Pending(table, keys, n + 1));
    var r := Passes(table, left, filled);
    LaterMembers(table, left, filled);
    NoRepeatsIn(table, left, filled);
    var b := r.done + r.left;
    hide Passes, FilledBy;
    forall i, j | 0 <= i < j < |a + b| ensures (a + b)[i] != (a + b)[j] {
      if i < |a| <= j {
        assert a[i] in a && b[j - |a|] in b;
      } else if |a| <= i {
        assert b[i - |a|] != b[j - |a|];
      }
    }
  }

  lemma NoRepeatsIn(table: Table, pending: seq<nat>, filled: set<nat>)
    requires NoRepeats(pending)
    ensures var r := Passes(table, pending, filled); NoRepeats(r.done + r.left)
  {
    var r := Passes(table, pending, filled);
    FilledOnce(table, pending, filled);
    assert multiset(r.done + r.left) == multiset(pending);
    NoRepeatsIsMultiset(pending);
    NoRepeatsIsMultiset(r.done + r.left);
  }

  /** For one given order of the keys, the filling order in closed form: by pass, then by key, where the pass of
      an enum follows from those of its direct enum payloads. */
  lemma OrderIs(table: Table, keys: seq<nat>, u: nat, t: nat)
    requires Lists(keys, table) && u in keys && t in keys
    ensures var r := Passes(table, keys, {});
            Before(r.done + r.left, u, t) <==> FilledEarlier(table, keys, u, t)
  {
    assert FilledIn(table, keys, 0) == {};
    assert u in Elems(keys) && t in Elems(keys);
    OnlyAll(keys, Pending(table, keys, 0));
    PassesOrder(table, keys, 0, u, t);
    hide *;
  }

  lemma {:induction false} OnlyAll(s: seq<nat>, d: set<nat>)
    requires forall x :: x in s ==> x in d
    ensures Only(s, d) == s
  {
    if s != [] {
      OnlyAll(s[1..], d);
    }
  }

  /** No payload is measured too early, in the given order of the keys, exactly when every needed enum is filled
      earlier by that form. */
  lemma BodiesFirstIn(table: Table, keys: seq<nat>)
    requires Lists(keys, table)
    ensures BodiesFirst(table, keys) <==> forall t, u :: Needs(table, t, u) ==> FilledEarlier(table, keys, u, t)
  {
    var r := Passes(table, keys, {});
    LaterMembers(table, keys, {});
    forall t, u | Needs(table, t, u)
      ensures t in r.done + r.left && (Before(r.done + r.left, u, t) <==> FilledEarlier(table, keys, u, t))
    {
      assert t in Elems(keys) && u in Elems(keys);
      OrderIs(table, keys, u, t);
    }
    hide Passes, Needs, FilledEarlier, Before;
  }

  lemma MeasuredTooEarly(table: Table, keys: seq<nat>, t: nat, u: nat) returns (ks: seq<nat>)
    requires Lists(keys, table) && Needs(table, t, u) && !Steered(table, t, u)
    ensures Lists(ks, table) && !BodiesFirst(table, ks)
  {
    hide Passes, BodiesFirst, Lists, Needs, Least, Downward;
    if Least(table, t) {
      var d: set<nat> :| Downward(table, t, d) && u !in d;
      ks := TooEarly(table, keys, t, u, d);
    } else {
      ks := LeftoverTooEarly(table, keys, t, u);
    }
  }

  /** What is listed first is measured, or it is the first leftover. */
  lemma {:induction false} FirstLeft(table: Table, pending: seq<nat>, filled: set<nat>)
    requires pending != []
    ensures var r := Passes(table, pending, filled);
            pending[0] in r.done || (r.left != [] && r.left[0] == pending[0])
    decreases |pending|
  {
    var p := Pass(table, pending, filled);
    PassesStep(table, pending, filled);
    if Measurable(table, pending[0], filled) {
      assert p.done[0] == pending[0];
      assert Passes(table, pending, filled).done[0] == pending[0];
    } else {
      assert p.left[0] == pending[0];
      if p.done != [] {
        FirstLeft(table, p.left, filled + Elems(p.done));
      }
    }
  }

  lemma LeftoverTooEarly(table: Table, keys: seq<nat>, t: nat, u: nat) returns (ks: seq<nat>)
    requires Lists(keys, table) && Needs(table, t, u) && !Least(table, t) && !Least(table, u)
    ensures Lists(ks, table) && !BodiesFirst(table, ks)
  {
    hide Passes, Least, Pass, SizeClosed;
    var rest := Complete(table, keys, [t]);
    ks := [t] + rest;
    MeasuredIsLeast(table, ks);
    FirstLeft(table, ks, {});
    NoRepeatsDone(table, ks);
    var r := Passes(table, ks, {});
    var order := r.done + r.left;
    var n := |r.done|;
    assert order[n] == t;
    assert !Before(order, u, t) by {
      forall i, j | 0 <= i < j < |order| && order[j] == t ensures order[i] != u {
        assert j == n;
        assert order[i] == r.done[i];
        assert r.done[i] in r.done;
      }
    }
    assert BodiesFirst(table, ks) ==> Before(order, u, t);
  }

  /** What a measured enum reaches through direct payloads is filled before it, and leftovers come last. */
  lemma SteeredFirst(table: Table, keys: seq<nat>)
    requires Lists(keys, table) && forall t, u :: Needs(table, t, u) ==> Steered(table, t, u)
    ensures BodiesFirst(table, keys)
  {
    var r := Passes(table, keys, {});
    var order := r.done + r.left;
    MeasuredIsLeast(table, keys);
    PassesChain(table, keys, {});
    hide Passes, Least, Needs;
    forall t, u | t in order && Needs(table, t, u) ensures Before(order, u, t) {
      assert Steered(table, t, u);
      if t in r.done {
        var j := IndexOf(r.done, t);
        PrefixDownward(table, r.done, j);
        assert u in Elems(r.done[..j]);
        var i :| 0 <= i < j && r.done[..j][i] == u;
        assert order[i] == u && order[j] == t;
      } else {
        var i :| 0 <= i < |r.done| && r.done[i] == u;
        var j :| 0 <= j < |r.left| && r.left[j] == t;
        assert order[i] == u && order[|r.done| + j] == t;
      }
    }
  }

  /** What precedes an enum in a valid order is closed under direct payloads. */
  lemma PrefixDownward(table: Table, order: seq<nat>, j: nat)
    requires Chain(table, order, {}) && j < |order|
    ensures Downward(table, order[j], Elems(order[..j]))
  {
    var d := Elems(order[..j]);
    forall x, y | (x == order[j] || x in d) && Direct(table, x, y) ensures y in d {
      var i := if x == order[j] then j else IndexOf(order[..j], x);
      assert order[i] == x;
      ChainAt(table, order, {}, i);
      assert y in {} + Elems(order[..i]);
      var k :| 0 <= k < i && order[..i][k] == y;
      assert order[..j][k] == y;
    }
  }

  function Only(s: seq<nat>, d: set<nat>): (r: seq<nat>)
    ensures forall x :: x in r <==> x in s && x in d
    ensures NoRepeats(s) ==> NoRepeats(r)
  {
    if s == [] then []
    else
      var r := Only(s[1..], d);
      if s[0] in d then [s[0]] + r else r
  }

  /** Dropping enums that the kept ones do not need keeps the order valid. */
  lemma {:induction false} ChainOnly(table: Table, order: seq<nat>, d: set<nat>, filled: set<nat>)
    requires Chain(table, order, filled)
    requires forall x, y :: x in d && Direct(table, x, y) ==> y in d
    ensures Chain(table, Only(order, d), filled * d)
  {
    if order != [] {
      ChainOnly(table, order[1..], d, filled + {order[0]});
      if order[0] in d {
        assert (filled + {order[0]}) * d == filled * d + {order[0]};
        forall v | order[0] in table && v in table[order[0]] && v.Carries? &&
          v.payload.EnumTy? ensures v.payload.id in filled * d {
          assert Direct(table, order[0], v.payload.id);
        }
      } else {
        assert (filled + {order[0]}) * d == filled * d;
      }
    }
  }

  /** A chain at the head of the keys is filled in its own order. */
  lemma {:induction false} PassFollows(table: Table, chain: seq<nat>, rest: seq<nat>, filled: set<nat>)
    requires Chain(table, chain, filled)
    ensures chain <= Pass(table, chain + rest, filled).done
  {
    if chain != [] {
      assert (chain + rest)[1..] == chain[1..] + rest;
      PassFollows(table, chain[1..], rest, filled + {chain[0]});
    }
  }

  /** What `t` needs, in a valid order, and then `t`. */
  lemma NeededFirst(table: Table, order: seq<nat>, t: nat, d: set<nat>) returns (chain: seq<nat>)
    requires Chain(table, order, {}) && NoRepeats(order) && Elems(order) <= table.Keys && t in order
    requires Downward(table, t, d)
    ensures Chain(table, chain, {}) && NoRepeats(chain) && Elems(chain) <= table.Keys
    ensures chain != [] && chain[|chain| - 1] == t && Elems(chain) <= d + {t}
  {
    var j := IndexOf(order, t);
    var before := order[..j];
    ChainPrefix(table, order, {}, j);
    var first := Only(before, d);
    ChainOnly(table, before, d, {});
    assert {} * d == {};
    ChainAt(table, order, {}, j);
    forall v | t in table && v in table[t] && v.Carries? && v.payload.EnumTy? ensures v.payload.id in {} +
      Elems(first) {
      assert Direct(table, t, v.payload.id);
      assert v.payload.id in {} + Elems(order[..j]);
    }
    assert Chain(table, [t], {} + Elems(first)) by {
      assert [t][1..] == [];
    }
    ChainJoin(table, first, [t], {});
    chain := first + [t];
    forall x | x in chain ensures x in table && x in d + {t} {
      if x in first {
        assert x in before;
        assert x in Elems(order);
      } else {
        assert t in Elems(order);
      }
    }
  }

  lemma Complete(table: Table, keys: seq<nat>, chain: seq<nat>) returns (rest: seq<nat>)
    requires Lists(keys, table) && NoRepeats(chain) && Elems(chain) <= table.Keys
    ensures Lists(chain + rest, table)
  {
    rest := Only(keys, table.Keys - Elems(chain));
    var ks := chain + rest;
    forall x ensures x in ks <==> x in table {
      assert x in table <==> x in Elems(keys);
      assert x in chain <==> x in Elems(chain);
    }
    assert Elems(ks) == table.Keys;
    forall i, j | 0 <= i < j < |ks| ensures ks[i] != ks[j] {
      if i < |chain| <= j {
        assert ks[j] == rest[j - |chain|];
        assert ks[j] in rest;
        assert ks[i] in Elems(chain);
      } else if |chain| <= i {
        assert rest[i - |chain|] != rest[j - |chain|];
      }
    }
  }

  lemma TooEarly(table: Table, keys: seq<nat>, t: nat, u: nat, d: set<nat>) returns (ks: seq<nat>)
    requires Lists(keys, table) && Least(table, t) && Needs(table, t, u) && Downward(table, t, d) && u !in d
    ensures Lists(ks, table) && !BodiesFirst(table, ks)
  {
    hide Chain, BodiesFirst, Pass, Passes, Downward, Least, Needs;
    var r := Passes(table, keys, {});
    MeasuredIsLeast(table, keys);
    PassesChain(table, keys, {});
    NoRepeatsDone(table, keys);
    forall i, j | 0 <= i < j < |r.done| ensures r.done[i] != r.done[j] {
      assert (r.done + r.left)[i] != (r.done + r.left)[j];
    }
    FilledOnce(table, keys, {});
    Members(keys, r.done, r.left);
    forall x | x in Elems(r.done) ensures x in table {
      assert x in Elems(keys);
    }
    var chain := NeededFirst(table, r.done, t, d);
    var rest := Complete(table, keys, chain);
    ks := chain + rest;
    PassFollows(table, chain, rest, {});
    assert u in chain ==> u in Elems(chain);
    EarlyStays(table, ks, chain, t, u);
  }

  lemma ChainPrefix(table: Table, order: seq<nat>, filled: set<nat>, n: nat)
    requires Chain(table, order, filled) && n <= |order|
    ensures Chain(table, order[..n], filled)
  {
    if n > 0 {
      assert order[..n][1..] == order[1..][..n - 1];
      ChainPrefix(table, order[1..], filled + {order[0]}, n - 1);
    }
  }

  lemma NoRepeatsDone(table: Table, keys: seq<nat>)
    requires NoRepeats(keys)
    ensures var r := Passes(table, keys, {}); NoRepeats(r.done + r.left)
  {
    NoRepeatsIn(table, keys, {});
  }

  lemma {:induction false} NoRepeatsIsMultiset(s: seq<nat>)
    ensures NoRepeats(s) <==> forall x :: multiset(s)[x] <= 1
  {
    if s != [] {
      var rest := s[1..];
      assert s == [s[0]] + rest;
      NoRepeatsIsMultiset(rest);
      assert multiset(s) == multiset{s[0]} + multiset(rest);
      assert s[0] in rest <==> multiset(rest)[s[0]] > 0;
      NoRepeatsStep(s);
      forall x ensures multiset(s)[x] == multiset(rest)[x] + if x == s[0] then 1 else 0 {
      }
      if NoRepeats(rest) && s[0] !in rest {
        forall x ensures multiset(s)[x] <= 1 {
          assert multiset(rest)[x] <= 1;
        }
      } else if NoRepeats(rest) {
        assert multiset(s)[s[0]] >= 2;
      } else {
        var x :| multiset(rest)[x] > 1;
        assert multiset(s)[x] > 1;
      }
    }
  }

  lemma NoRepeatsStep(s: seq<nat>)
    requires s != []
    ensures NoRepeats(s) <==> NoRepeats(s[1..]) && s[0] !in s[1..]
  {
    var rest := s[1..];
    if NoRepeats(s) {
      forall i, j | 0 <= i < j < |rest| ensures rest[i] != rest[j] {
        assert s[i + 1] != s[j + 1];
      }
    }
    if NoRepeats(rest) && s[0] !in rest {
      forall i, j | 0 <= i < j < |s| ensures s[i] != s[j] {
        assert s[j] == rest[j - 1];
      }
    }
  }

  lemma EarlyStays(table: Table, keys: seq<nat>, chain: seq<nat>, t: nat, u: nat)
    requires NoRepeats(keys) && chain != [] && chain <= Pass(table, keys, {}).done && chain[|chain| - 1] == t
    requires Needs(table, t, u)
    requires u == t || u !in chain
    ensures !BodiesFirst(table, keys)
  {
    var r := Passes(table, keys, {});
    NoRepeatsDone(table, keys);
    var order := r.done + r.left;
    assert chain <= r.done;
    var n := |chain| - 1;
    assert order[n] == t;
    assert t in r.done;
    assert !Before(order, u, t) by {
      forall i, j | 0 <= i < j < |order| && order[j] == t ensures order[i] != u {
        assert j == n;
        assert chain[i] == order[i];
      }
    }
    assert BodiesFirst(table, keys) ==> Before(order, u, t);
  }

  /** An enum with two payloads, one of them a struct around another enum: it is filled, and its payloads are
      measured, before that other enum has a body. */
  lemma WrappedTooEarly()
    ensures var table: Table := map[0 := [Carries(Aggregate([EnumTy(1)])), Carries(Leaf)], 1 := [Carries(Leaf)]];
            Lists([0, 1], table) && Needs(table, 0, 1) && !BodiesFirst(table, [0, 1])
  {
    var vs, us := [Carries(Aggregate([EnumTy(1)])), Carries(Leaf)], [Carries(Leaf)];
    var table: Table := map[0 := vs, 1 := us];
    assert Lists([0, 1], table);
    WrappedNeeds(table, vs, us);
    assert Measurable(table, 0, {});
    assert [0][1..] == [] && [0] + [1] == [0, 1];
    PassFollows(table, [0], [1], {});
    hide Needs, BodiesFirst, Pass;
    EarlyStays(table, [0, 1], [0], 0, 1);
  }

  lemma WrappedNeeds(table: Table, vs: seq<Variant>, us: seq<Variant>)
    requires vs == [Carries(Aggregate([EnumTy(1)])), Carries(Leaf)] && us == [Carries(Leaf)]
    requires table == map[0 := vs, 1 := us]
    ensures Needs(table, 0, 1)
  {
    assert us[1..] == [] && vs[1..] == us;
    assert Payloads(us) == [Leaf] && Payloads(vs) == [Aggregate([EnumTy(1)])] + Payloads(us);
    var parts := [EnumTy(1)];
    var ps := Payloads(vs);
    assert ps[0] == Aggregate(parts);
    assert HeldByAll(parts) == HeldBy(parts[0]) + HeldByAll(parts[1..]);
    assert 1 in HeldBy(ps[0]);
    assert HeldByAll(ps) == HeldBy(ps[0]) + HeldByAll(ps[1..]);
    assert 1 in HeldByAll(ps);
  }
}
