/**
  The depth-bounded, re-entrant tree walker of parser/resolve.go.

  `Walk` is the specification: what resolveAll(ctx, value, resolver, depth)
  returns. The Go walker can recurse without end when the depth cap is off
  and the resolver keeps rewriting nodes, so `Walk` carries fuel: the number
  of handled replacements it may still re-enter on. Structural descent into
  map values and list elements needs no fuel; it ends because the tree is
  finite. Go visits map entries in an unspecified order and returns the first
  error it meets, so a failing walk is described by the SET of errors some
  visiting order can surface.

  `ResolveFrom` is the walker itself, with the map and list loops of the Go
  code (the map loop picks its next key arbitrarily, as Go's range does),
  proved against `Walk`.
*/
module Resolve {
  import opened Wrappers
  import opened Values

  /** The configuration struct; walks receive a pointer to it, nil being None. */
  datatype Context = Context(maxDepth: int)

  /** An error value, identified by its message as the tests compare them. */
  datatype Error = Error(msg: string)

  /** The (out, handled, err) triple returned by Resolver.Resolve. */
  datatype Reply = Reply(out: Value, handled: bool, err: Option<Error>)

  /** The Resolver interface: any total function of the context and the node. */
  type Resolver = (Option<Context>, Value) -> Reply

  function Unhandled(v: Value): Reply {
    Reply(v, false, None)
  }

  function Handled(v: Value): Reply {
    Reply(v, true, None)
  }

  /** The depth check of resolveAll: only a non-nil context with a positive MaxDepth cuts a branch. */
  predicate Truncates(ctx: Option<Context>, depth: int) {
    ctx.Some? && ctx.value.maxDepth > 0 && depth > ctx.value.maxDepth
  }

  predicate Bounded(ctx: Option<Context>) {
    ctx.Some? && ctx.value.maxDepth > 0
  }

  /** What the walker learns from offering a node: a nil resolver leaves every node unhandled. */
  function Offer(r: Option<Resolver>, ctx: Option<Context>, v: Value): Reply {
    match r
    case None => Unhandled(v)
    case Some(f) => f(ctx, v)
  }

  /** The meaning of one walk. */
  datatype Outcome =
    | Resolved(value: Value)
    | Failed(errs: set<Error>)   // the errors some map visiting order returns
    | OutOfFuel                  // the walk re-enters more often than the fuel allows

  /** What the Go function returns: (value, nil), (nil, err), or, in the model only, no answer within the fuel. */
  datatype WalkResult = Ok(value: Value) | Fail(err: Error) | Exhausted

  /** Index of the first child outcome that is not a resolved value. */
  function FirstUnresolved(outs: seq<Outcome>): (r: Option<nat>)
    ensures r.Some? ==> r.value < |outs| && !outs[r.value].Resolved?
    ensures r.Some? ==> forall j :: 0 <= j < r.value ==> outs[j].Resolved?
    ensures r.None? ==> forall j :: 0 <= j < |outs| ==> outs[j].Resolved?
  {
    if outs == [] then None
    else if !outs[0].Resolved? then Some(0)
    else
      match FirstUnresolved(outs[1..])
      case None => None
      case Some(i) => Some(i + 1)
  }

  /** The first unresolved outcome is the one every earlier outcome resolves before. */
  lemma FirstUnresolvedIs(outs: seq<Outcome>, i: nat)
    requires i < |outs| && !outs[i].Resolved?
    requires forall j :: 0 <= j < i ==> outs[j].Resolved?
    ensures FirstUnresolved(outs) == Some(i) && CombineList(outs) == outs[i]
  {
  }

  function ResolvedValues(outs: seq<Outcome>): (vs: seq<Value>)
    requires forall j :: 0 <= j < |outs| ==> outs[j].Resolved?
    ensures |vs| == |outs| && forall j :: 0 <= j < |outs| ==> outs[j] == Resolved(vs[j])
  {
    seq(|outs|, j requires 0 <= j < |outs| => outs[j].value)
  }

  /** The list loop: elements are walked in order and the first one that fails decides. */
  function CombineList(outs: seq<Outcome>): (o: Outcome)
    ensures o.Resolved? <==> forall j :: 0 <= j < |outs| ==> outs[j].Resolved?
    ensures o.Resolved? ==> o.value.List? && |o.value.items| == |outs|
    ensures o.Resolved? ==> forall j :: 0 <= j < |outs| ==> outs[j] == Resolved(o.value.items[j])
    ensures !o.Resolved? ==> exists i :: 0 <= i < |outs| && o == outs[i] && forall j :: 0 <= j < i ==> outs[j].Resolved?
  {
    match FirstUnresolved(outs)
    case Some(i) => outs[i]
    case None => Resolved(List(ResolvedValues(outs)))
  }

  /**
    The map loop: every entry is walked under the same key. Which failing
    entry Go meets first is unspecified, so the errors of all failing entries
    are possible; an entry that runs out of fuel makes the whole walk do so.
  */
  function CombineMap(outs: map<string, Outcome>): (o: Outcome)
    ensures o.Resolved? <==> forall k :: k in outs ==> outs[k].Resolved?
    ensures o.Resolved? ==> o.value.Map? && o.value.entries.Keys == outs.Keys
    ensures o.Resolved? ==> forall k :: k in outs ==> outs[k] == Resolved(o.value.entries[k])
    ensures o.OutOfFuel? <==> exists k :: k in outs && outs[k].OutOfFuel?
    ensures o.Failed? ==> forall e :: e in o.errs <==> exists k :: k in outs && outs[k].Failed? && e in outs[k].errs
  {
    if exists k :: k in outs && outs[k].OutOfFuel? then OutOfFuel
    else if exists k :: k in outs && outs[k].Failed? then
      Failed(set k, e | k in outs && outs[k].Failed? && e in outs[k].errs :: e)
    else Resolved(Map(map k | k in outs :: outs[k].value))
  }

  /** resolveAll(ctx, v, r, depth), given `fuel` further re-entries. */
  function Walk(ctx: Option<Context>, v: Value, r: Option<Resolver>, depth: int, fuel: nat): Outcome
    decreases fuel, v, 1
  {
    if Truncates(ctx, depth) then Resolved(v)
    else
      var reply := Offer(r, ctx, v);
      if reply.err.Some? then Failed({reply.err.value})
      else if reply.handled then
        if fuel == 0 then OutOfFuel else Walk(ctx, reply.out, r, depth + 1, fuel - 1)
      else
        match v
        case Map(m) => CombineMap(EntryOutcomes(ctx, m, r, depth + 1, fuel))
        case List(items) => CombineList(ItemOutcomes(ctx, items, r, depth + 1, fuel))
        case _ => Resolved(v)
  }

  /** The walk of every map value, at the children's depth. */
  function EntryOutcomes(ctx: Option<Context>, m: map<string, Value>, r: Option<Resolver>, depth: int, fuel: nat)
    : (outs: map<string, Outcome>)
    decreases fuel, Map(m), 0
    ensures outs.Keys == m.Keys
  {
    map k | k in m :: Walk(ctx, m[k], r, depth, fuel)
  }

  /** The walk of every list element, at the children's depth. */
  function ItemOutcomes(ctx: Option<Context>, items: seq<Value>, r: Option<Resolver>, depth: int, fuel: nat)
    : (outs: seq<Outcome>)
    decreases fuel, List(items), 0
    ensures |outs| == |items|
  {
    seq(|items|, i requires 0 <= i < |items| => Walk(ctx, items[i], r, depth, fuel))
  }

  /** A result of the Go function agrees with the outcome of the walk. */
  predicate Answers(res: WalkResult, o: Outcome) {
    && (res.Ok? ==> o == Resolved(res.value))
    && (res.Fail? ==> o.OutOfFuel? || (o.Failed? && res.err in o.errs))
    && (res.Exhausted? ==> o.OutOfFuel?)
  }

  /** The recursive walker resolveAll. */
  method ResolveFrom(ctx: Option<Context>, v: Value, r: Option<Resolver>, depth: int, fuel: nat)
    returns (res: WalkResult)
    decreases fuel, v, 1
    ensures Answers(res, Walk(ctx, v, r, depth, fuel))
  {
    if Truncates(ctx, depth) {
      return Ok(v);
    }
    if r.Some? {
      var reply := r.value(ctx, v);
      if reply.err.Some? {
        return Fail(reply.err.value);
      }
      if reply.handled {
        if fuel == 0 {
          return Exhausted;
        }
        res := ResolveFrom(ctx, reply.out, r, depth + 1, fuel - 1);
        return;
      }
    }
    match v
    case Map(m) =>
      res := ResolveEntries(ctx, m, r, depth + 1, fuel);
    case List(items) =>
      res := ResolveItems(ctx, items, r, depth + 1, fuel);
    case _ =>
      res := Ok(v);
  }

  /** The map loop: a fresh map filled key by key, in whatever order the keys come, returning on the first error. */
  method ResolveEntries(ctx: Option<Context>, m: map<string, Value>, r: Option<Resolver>, depth: int, fuel: nat)
    returns (res: WalkResult)
    decreases fuel, Map(m), 0
    ensures Answers(res, CombineMap(EntryOutcomes(ctx, m, r, depth, fuel)))
  {
    ghost var outs := EntryOutcomes(ctx, m, r, depth, fuel);
    var out: map<string, Value> := map[];
    var todo := m.Keys;
    while todo != {}
      invariant todo <= m.Keys
      invariant out.Keys == m.Keys - todo
      invariant forall k :: k in out ==> outs[k] == Resolved(out[k])
      decreases todo
    {
      var k :| k in todo;
      var child := ResolveFrom(ctx, m[k], r, depth, fuel);
      if !child.Ok? {
        assert outs[k] == Walk(ctx, m[k], r, depth, fuel);
        return child;
      }
      out := out[k := child.value];
      todo := todo - {k};
    }
    assert out == CombineMap(outs).value.entries;
    res := Ok(Map(out));
  }

  /** The list loop: a fresh slice of the same length filled index by index, returning on the first error. */
  method ResolveItems(ctx: Option<Context>, items: seq<Value>, r: Option<Resolver>, depth: int, fuel: nat)
    returns (res: WalkResult)
    decreases fuel, List(items), 0
    ensures Answers(res, CombineList(ItemOutcomes(ctx, items, r, depth, fuel)))
  {
    ghost var outs := ItemOutcomes(ctx, items, r, depth, fuel);
    var out := new Value[|items|];
    for i := 0 to |items|
      invariant forall j :: 0 <= j < i ==> outs[j] == Resolved(out[j])
    {
      var child := ResolveFrom(ctx, items[i], r, depth, fuel);
      if !child.Ok? {
        assert outs[i] == Walk(ctx, items[i], r, depth, fuel);
        FirstUnresolvedIs(outs, i);
        return child;
      }
      out[i] := child.value;
    }
    assert out[..] == CombineList(outs).value.items;
    res := Ok(List(out[..]));
  }

  /** ResolveAll: the walk starts at depth 0; with a positive MaxDepth, MaxDepth + 1 re-entries always suffice. */
  method ResolveAll(ctx: Option<Context>, v: Value, r: Option<Resolver>, fuel: nat) returns (res: WalkResult)
    ensures Answers(res, Walk(ctx, v, r, 0, fuel))
    ensures Bounded(ctx) && fuel > ctx.value.maxDepth ==> !res.Exhausted? && !Walk(ctx, v, r, 0, fuel).OutOfFuel?
  {
    res := ResolveFrom(ctx, v, r, 0, fuel);
    if Bounded(ctx) && fuel > ctx.value.maxDepth {
      BoundedNeverExhausted(ctx, v, r, 0, fuel);
    }
  }

  // ---------------------------------------------------------------------
  // Properties of the walk

  /** Past the cap the node comes back as it is, whatever the resolver would have said. */
  lemma TruncationKeepsValue(ctx: Option<Context>, v: Value, r: Option<Resolver>, depth: int, fuel: nat)
    requires Truncates(ctx, depth)
    ensures Walk(ctx, v, r, depth, fuel) == Resolved(v)
    ensures Walk(ctx, v, r, depth, fuel) == Walk(ctx, v, None, depth, fuel)
  {
  }

  /** With a nil context or a MaxDepth of zero or less the depth is never looked at. */
  lemma {:induction false} UnboundedIgnoresDepth(ctx: Option<Context>, v: Value, r: Option<Resolver>, d1: int, d2: int, fuel: nat)
    requires !Bounded(ctx)
    ensures Walk(ctx, v, r, d1, fuel) == Walk(ctx, v, r, d2, fuel)
    decreases fuel, v
  {
    var reply := Offer(r, ctx, v);
    if reply.err.None? {
      if reply.handled {
        if fuel > 0 {
          UnboundedIgnoresDepth(ctx, reply.out, r, d1 + 1, d2 + 1, fuel - 1);
        }
      } else {
        match v
        case Map(m) =>
          forall k | k in m
            ensures Walk(ctx, m[k], r, d1 + 1, fuel) == Walk(ctx, m[k], r, d2 + 1, fuel)
          {
            UnboundedIgnoresDepth(ctx, m[k], r, d1 + 1, d2 + 1, fuel);
          }
          assert EntryOutcomes(ctx, m, r, d1 + 1, fuel) == EntryOutcomes(ctx, m, r, d2 + 1, fuel);
        case List(items) =>
          forall i | 0 <= i < |items|
            ensures Walk(ctx, items[i], r, d1 + 1, fuel) == Walk(ctx, items[i], r, d2 + 1, fuel)
          {
            UnboundedIgnoresDepth(ctx, items[i], r, d1 + 1, d2 + 1, fuel);
          }
          assert ItemOutcomes(ctx, items, r, d1 + 1, fuel) == ItemOutcomes(ctx, items, r, d2 + 1, fuel);
        case _ =>
      }
    }
  }

  /** A resolver error on the node aborts its walk with exactly that error. */
  lemma ResolverErrorAborts(ctx: Option<Context>, v: Value, r: Option<Resolver>, depth: int, fuel: nat, e: Error)
    requires !Truncates(ctx, depth)
    requires Offer(r, ctx, v).err == Some(e)
    ensures Walk(ctx, v, r, depth, fuel) == Failed({e})
  {
  }

  /** Every error a walk can return is one the resolver returned: nothing is wrapped or synthesized. */
  lemma {:induction false} ErrorsComeFromResolver(ctx: Option<Context>, v: Value, r: Option<Resolver>, depth: int, fuel: nat, raised: set<Error>)
    requires forall c, x :: Offer(r, c, x).err.Some? ==> Offer(r, c, x).err.value in raised
    ensures Walk(ctx, v, r, depth, fuel).Failed? ==>
              Walk(ctx, v, r, depth, fuel).errs != {} && Walk(ctx, v, r, depth, fuel).errs <= raised
    decreases fuel, v
  {
    if !Truncates(ctx, depth) {
      var reply := Offer(r, ctx, v);
      if reply.err.None? {
        if reply.handled {
          if fuel > 0 {
            ErrorsComeFromResolver(ctx, reply.out, r, depth + 1, fuel - 1, raised);
          }
        } else {
          match v
          case Map(m) =>
            var outs := EntryOutcomes(ctx, m, r, depth + 1, fuel);
            forall k | k in m
              ensures outs[k].Failed? ==> outs[k].errs != {} && outs[k].errs <= raised
            {
              ErrorsComeFromResolver(ctx, m[k], r, depth + 1, fuel, raised);
            }
            assert Walk(ctx, v, r, depth, fuel) == CombineMap(outs);
          case List(items) =>
            var outs := ItemOutcomes(ctx, items, r, depth + 1, fuel);
            forall i | 0 <= i < |items|
              ensures outs[i].Failed? ==> outs[i].errs != {} && outs[i].errs <= raised
            {
              ErrorsComeFromResolver(ctx, items[i], r, depth + 1, fuel, raised);
            }
            assert Walk(ctx, v, r, depth, fuel) == CombineList(outs);
          case _ =>
        }
      }
    }
  }

  /** A handled node is replaced, not descended into: only its replacement is walked, one level deeper. */
  lemma ReentryWalksReplacement(ctx: Option<Context>, v1: Value, v2: Value, r: Option<Resolver>, depth: int, fuel: nat)
    requires !Truncates(ctx, depth) && fuel > 0
    requires Offer(r, ctx, v1).err.None? && Offer(r, ctx, v1).handled
    requires Offer(r, ctx, v2).err.None? && Offer(r, ctx, v2).handled
    requires Offer(r, ctx, v1).out == Offer(r, ctx, v2).out
    ensures Walk(ctx, v1, r, depth, fuel) == Walk(ctx, Offer(r, ctx, v1).out, r, depth + 1, fuel - 1)
    ensures Walk(ctx, v1, r, depth, fuel) == Walk(ctx, v2, r, depth, fuel)
  {
  }

  /** An unhandled map is rebuilt under the same keys, each value walked one level deeper. */
  lemma UnhandledMapKeepsKeys(ctx: Option<Context>, m: map<string, Value>, r: Option<Resolver>, depth: int, fuel: nat)
    requires !Truncates(ctx, depth)
    requires Offer(r, ctx, Map(m)).err.None? && !Offer(r, ctx, Map(m)).handled
    ensures Walk(ctx, Map(m), r, depth, fuel).Resolved? <==>
              forall k :: k in m ==> Walk(ctx, m[k], r, depth + 1, fuel).Resolved?
    ensures Walk(ctx, Map(m), r, depth, fuel).Resolved? ==>
              var w := Walk(ctx, Map(m), r, depth, fuel).value;
              w.Map? && w.entries.Keys == m.Keys &&
              forall k :: k in m ==> Walk(ctx, m[k], r, depth + 1, fuel) == Resolved(w.entries[k])
    ensures Walk(ctx, Map(m), r, depth, fuel).Failed? ==>
              forall k :: k in m && Walk(ctx, m[k], r, depth + 1, fuel).Failed? ==>
                Walk(ctx, m[k], r, depth + 1, fuel).errs <= Walk(ctx, Map(m), r, depth, fuel).errs
  {
    var outs := EntryOutcomes(ctx, m, r, depth + 1, fuel);
    assert Walk(ctx, Map(m), r, depth, fuel) == CombineMap(outs);
    forall k | k in m
      ensures outs[k] == Walk(ctx, m[k], r, depth + 1, fuel)
    {
    }
  }

  /** An unhandled map whose values all resolve becomes the map of what they resolve to. */
  lemma UnhandledMapResolvesTo(ctx: Option<Context>, m: map<string, Value>, r: Option<Resolver>, depth: int, fuel: nat,
                               want: map<string, Value>)
    requires !Truncates(ctx, depth)
    requires Offer(r, ctx, Map(m)).err.None? && !Offer(r, ctx, Map(m)).handled
    requires m.Keys == want.Keys
    requires forall k :: k in m ==> Walk(ctx, m[k], r, depth + 1, fuel) == Resolved(want[k])
    ensures Walk(ctx, Map(m), r, depth, fuel) == Resolved(Map(want))
  {
    UnhandledMapKeepsKeys(ctx, m, r, depth, fuel);
    assert Walk(ctx, Map(m), r, depth, fuel).value.entries == want;
  }

  /** An unhandled list resolves exactly when every element does, keeping its length with element i walked one level deeper; the first failing element decides. */
  lemma UnhandledListKeepsLength(ctx: Option<Context>, items: seq<Value>, r: Option<Resolver>, depth: int, fuel: nat)
    requires !Truncates(ctx, depth)
    requires Offer(r, ctx, List(items)).err.None? && !Offer(r, ctx, List(items)).handled
    ensures Walk(ctx, List(items), r, depth, fuel).Resolved? <==>
              forall i :: 0 <= i < |items| ==> Walk(ctx, items[i], r, depth + 1, fuel).Resolved?
    ensures Walk(ctx, List(items), r, depth, fuel).Resolved? ==>
              var w := Walk(ctx, List(items), r, depth, fuel).value;
              w.List? && |w.items| == |items| &&
              forall i :: 0 <= i < |items| ==> Walk(ctx, items[i], r, depth + 1, fuel) == Resolved(w.items[i])
    ensures forall i :: 0 <= i < |items| && !Walk(ctx, items[i], r, depth + 1, fuel).Resolved? &&
                        (forall j :: 0 <= j < i ==> Walk(ctx, items[j], r, depth + 1, fuel).Resolved?) ==>
              Walk(ctx, List(items), r, depth, fuel) == Walk(ctx, items[i], r, depth + 1, fuel)
  {
    var outs := ItemOutcomes(ctx, items, r, depth + 1, fuel);
    assert Walk(ctx, List(items), r, depth, fuel) == CombineList(outs);
    assert forall j :: 0 <= j < |items| ==> outs[j] == Walk(ctx, items[j], r, depth + 1, fuel);
    forall i | 0 <= i < |items| && !Walk(ctx, items[i], r, depth + 1, fuel).Resolved? &&
               (forall j :: 0 <= j < i ==> Walk(ctx, items[j], r, depth + 1, fuel).Resolved?)
      ensures CombineList(outs) == Walk(ctx, items[i], r, depth + 1, fuel)
    {
      FirstUnresolvedIs(outs, i);
    }
  }

  /** An unhandled scalar comes back unchanged. */
  lemma UnhandledScalarUnchanged(ctx: Option<Context>, v: Value, r: Option<Resolver>, depth: int, fuel: nat)
    requires IsScalar(v)
    requires Offer(r, ctx, v).err.None? && !Offer(r, ctx, v).handled
    ensures Walk(ctx, v, r, depth, fuel) == Resolved(v)
  {
  }

  /** With a nil resolver the walk is a deep copy: the result equals the input, for every tree. */
  lemma {:induction false} NilResolverIdentity(ctx: Option<Context>, v: Value, depth: int, fuel: nat)
    ensures Walk(ctx, v, None, depth, fuel) == Resolved(v)
    decreases v
  {
    if !Truncates(ctx, depth) {
      match v
      case Map(m) =>
        var outs := EntryOutcomes(ctx, m, None, depth + 1, fuel);
        forall k | k in m
          ensures outs[k] == Resolved(m[k])
        {
          NilResolverIdentity(ctx, m[k], depth + 1, fuel);
        }
        assert CombineMap(outs).value.entries == m;
      case List(items) =>
        var outs := ItemOutcomes(ctx, items, None, depth + 1, fuel);
        forall i | 0 <= i < |items|
          ensures outs[i] == Resolved(items[i])
        {
          NilResolverIdentity(ctx, items[i], depth + 1, fuel);
        }
        assert CombineList(outs).value.items == items;
      case _ =>
    }
  }

  /**
    With a positive MaxDepth every call, structural or re-entrant, goes one
    level deeper and nothing runs below MaxDepth + 1, so MaxDepth + 1 - depth
    re-entries are always enough: the bounded walk terminates.
  */
  lemma {:induction false} BoundedNeverExhausted(ctx: Option<Context>, v: Value, r: Option<Resolver>, depth: int, fuel: nat)
    requires Bounded(ctx) && fuel >= ctx.value.maxDepth + 1 - depth
    ensures !Walk(ctx, v, r, depth, fuel).OutOfFuel?
    decreases fuel, v
  {
    if !Truncates(ctx, depth) {
      var reply := Offer(r, ctx, v);
      if reply.err.None? {
        if reply.handled {
          BoundedNeverExhausted(ctx, reply.out, r, depth + 1, fuel - 1);
        } else {
          match v
          case Map(m) =>
            var outs := EntryOutcomes(ctx, m, r, depth + 1, fuel);
            forall k | k in m
              ensures !outs[k].OutOfFuel?
            {
              BoundedNeverExhausted(ctx, m[k], r, depth + 1, fuel);
            }
            assert Walk(ctx, v, r, depth, fuel) == CombineMap(outs);
          case List(items) =>
            var outs := ItemOutcomes(ctx, items, r, depth + 1, fuel);
            forall i | 0 <= i < |items|
              ensures !outs[i].OutOfFuel?
            {
              BoundedNeverExhausted(ctx, items[i], r, depth + 1, fuel);
            }
            assert Walk(ctx, v, r, depth, fuel) == CombineList(outs);
          case _ =>
        }
      }
    }
  }

  /** More fuel changes nothing once a walk has an answer. */
  lemma {:induction false} FuelMonotone(ctx: Option<Context>, v: Value, r: Option<Resolver>, depth: int, f1: nat, f2: nat)
    requires f1 <= f2 && !Walk(ctx, v, r, depth, f1).OutOfFuel?
    ensures Walk(ctx, v, r, depth, f2) == Walk(ctx, v, r, depth, f1)
    decreases f1, v, 1
  {
    if !Truncates(ctx, depth) {
      var reply := Offer(r, ctx, v);
      if reply.err.None? {
        if reply.handled {
          FuelMonotone(ctx, reply.out, r, depth + 1, f1 - 1, f2 - 1);
        } else {
          match v
          case Map(m) => FuelMonotoneEntries(ctx, m, r, depth, f1, f2);
          case List(items) => FuelMonotoneItems(ctx, items, r, depth, f1, f2);
          case _ =>
        }
      }
    }
  }

  /** The map case of FuelMonotone: every entry already has its answer. */
  lemma {:induction false} FuelMonotoneEntries(ctx: Option<Context>, m: map<string, Value>, r: Option<Resolver>, depth: int, f1: nat, f2: nat)
    requires !Truncates(ctx, depth) && Offer(r, ctx, Map(m)).err.None? && !Offer(r, ctx, Map(m)).handled
    requires f1 <= f2 && !Walk(ctx, Map(m), r, depth, f1).OutOfFuel?
    ensures Walk(ctx, Map(m), r, depth, f2) == Walk(ctx, Map(m), r, depth, f1)
    decreases f1, Map(m), 0
  {
    var o1 := EntryOutcomes(ctx, m, r, depth + 1, f1);
    var o2 := EntryOutcomes(ctx, m, r, depth + 1, f2);
    assert Walk(ctx, Map(m), r, depth, f1) == CombineMap(o1);
    forall k | k in m
      ensures o2[k] == o1[k]
    {
      assert !o1[k].OutOfFuel?;
      FuelMonotone(ctx, m[k], r, depth + 1, f1, f2);
    }
    assert o1 == o2;
  }

  /** The list case of FuelMonotone: the elements up to the first unresolved one already have their answers. */
  lemma {:induction false} FuelMonotoneItems(ctx: Option<Context>, items: seq<Value>, r: Option<Resolver>, depth: int, f1: nat, f2: nat)
    requires !Truncates(ctx, depth) && Offer(r, ctx, List(items)).err.None? && !Offer(r, ctx, List(items)).handled
    requires f1 <= f2 && !Walk(ctx, List(items), r, depth, f1).OutOfFuel?
    ensures Walk(ctx, List(items), r, depth, f2) == Walk(ctx, List(items), r, depth, f1)
    decreases f1, List(items), 0
  {
    var o1 := ItemOutcomes(ctx, items, r, depth + 1, f1);
    var o2 := ItemOutcomes(ctx, items, r, depth + 1, f2);
    var first := FirstUnresolved(o1);
    assert Walk(ctx, List(items), r, depth, f1) == CombineList(o1);
    forall i | 0 <= i < |items| && (first.None? || i <= first.value)
      ensures o2[i] == o1[i]
    {
      assert o1[i] == Walk(ctx, items[i], r, depth + 1, f1);
      if first.Some? && i == first.value {
        assert CombineList(o1) == o1[i];
      }
      FuelMonotone(ctx, items[i], r, depth + 1, f1, f2);
    }
    CombineListOfAgreeingPrefix(o1, o2);
  }

  /** Two outcome lists that agree up to and including the first unresolved one combine alike. */
  lemma CombineListOfAgreeingPrefix(o1: seq<Outcome>, o2: seq<Outcome>)
    requires |o1| == |o2|
    requires forall i :: 0 <= i < |o1| && (FirstUnresolved(o1).None? || i <= FirstUnresolved(o1).value) ==> o2[i] == o1[i]
    ensures CombineList(o2) == CombineList(o1)
  {
    if FirstUnresolved(o1).None? {
      assert o1 == o2;
    } else {
      FirstUnresolvedIs(o2, FirstUnresolved(o1).value);
    }
  }

  /** In the bounded case the fuel is an artefact of the model: any sufficient amount gives the same answer. */
  lemma BoundedFuelIrrelevant(ctx: Option<Context>, v: Value, r: Option<Resolver>, depth: int, f1: nat, f2: nat)
    requires Bounded(ctx)
    requires f1 >= ctx.value.maxDepth + 1 - depth && f2 >= ctx.value.maxDepth + 1 - depth
    ensures Walk(ctx, v, r, depth, f1) == Walk(ctx, v, r, depth, f2)
  {
    if f1 <= f2 {
      BoundedNeverExhausted(ctx, v, r, depth, f1);
      FuelMonotone(ctx, v, r, depth, f1, f2);
    } else {
      BoundedNeverExhausted(ctx, v, r, depth, f2);
      FuelMonotone(ctx, v, r, depth, f2, f1);
    }
  }

  /**
    A node the resolver keeps replacing by itself (a self-referential Ref) is
    cut by the shared depth budget: after MaxDepth + 1 - depth re-entries the
    depth check hands the node back unchanged.
  */
  lemma {:induction false} SelfReferenceCutAtCap(ctx: Option<Context>, v: Value, f: Resolver, depth: int, fuel: nat)
    requires Bounded(ctx) && fuel >= ctx.value.maxDepth + 1 - depth
    requires f(ctx, v) == Handled(v)
    ensures Walk(ctx, v, Some(f), depth, fuel) == Resolved(v)
    decreases fuel
  {
    if !Truncates(ctx, depth) {
      SelfReferenceCutAtCap(ctx, v, f, depth + 1, fuel - 1);
    }
  }

  /** Without a cap the same node is re-entered for ever: no amount of fuel ends the walk. */
  lemma {:induction false} SelfReferenceUnboundedDiverges(ctx: Option<Context>, v: Value, f: Resolver, depth: int, fuel: nat)
    requires !Bounded(ctx)
    requires f(ctx, v) == Handled(v)
    ensures Walk(ctx, v, Some(f), depth, fuel) == OutOfFuel
    decreases fuel
  {
    if fuel > 0 {
      SelfReferenceUnboundedDiverges(ctx, v, f, depth + 1, fuel - 1);
    }
  }
}
