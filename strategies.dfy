/**
  The resolution strategies of parser/resolve_test.go (refResolver,
  ifResolver, chainResolver, errResolver) and the ResolveAll scenarios built
  from them.
*/
module Strategies {
  import opened Wrappers
  import opened Values
  import opened Resolve

  /** A map holding exactly one entry, under `key`. */
  predicate SingleEntry(v: Value, key: string) {
    v.Map? && |v.entries| == 1 && key in v.entries
  }

  /** The name a single-key {"Ref": name} map refers to, as fmt.Sprint renders it. */
  function RefName(v: Value): Option<string>
    requires SingleEntry(v, "Ref")
  {
    Sprint(v.entries["Ref"])
  }

  /** The arguments of a single-key {"Fn::If": [cond, then, else]} map, when they are a list of three. */
  predicate IsIfCall(v: Value) {
    SingleEntry(v, "Fn::If") && v.entries["Fn::If"].List? && |v.entries["Fn::If"].items| == 3
  }

  /** refResolver: a known Ref becomes the string its table holds; every other value is left alone. */
  function RefResolve(values: map<string, string>, v: Value): (reply: Reply)
    ensures reply.err.None?
    ensures reply.handled <==> SingleEntry(v, "Ref") && RefName(v).Some? && RefName(v).value in values
    ensures reply.handled ==> reply.out == Str(values[RefName(v).value])
    ensures !reply.handled ==> reply.out == v
  {
    match v
    case Map(m) =>
      if |m| != 1 || "Ref" !in m then Unhandled(v)
      else
        (match Sprint(m["Ref"])
         case Some(name) => if name in values then Handled(Str(values[name])) else Unhandled(v)
         case None => Unhandled(v))
    case _ => Unhandled(v)
  }

  /** ifResolver: a three-argument Fn::If becomes its second argument when the flag is set, else its third. */
  function IfResolve(flag: bool, v: Value): (reply: Reply)
    ensures reply.err.None?
    ensures reply.handled <==> IsIfCall(v)
    ensures reply.handled ==> reply.out == v.entries["Fn::If"].items[if flag then 1 else 2]
    ensures !reply.handled ==> reply.out == v
  {
    match v
    case Map(m) =>
      if |m| != 1 || "Fn::If" !in m then Unhandled(v)
      else
        (match m["Fn::If"]
         case List(args) =>
           if |args| != 3 then Unhandled(v)
           else if flag then Handled(args[1]) else Handled(args[2])
         case _ => Unhandled(v))
    case _ => Unhandled(v)
  }

  /** errResolver: every value fails with the same error. */
  function RaiseResolve(err: Error, v: Value): (reply: Reply)
    ensures reply == Reply(Null, true, Some(err))
  {
    Reply(Null, true, Some(err))
  }

  /** chainResolver: members are asked in order; the first error or the first handled value ends the search. */
  function ChainResolve(members: seq<Resolver>, ctx: Option<Context>, v: Value): Reply
  {
    if members == [] then Unhandled(v)
    else
      var reply := members[0](ctx, v);
      if reply.err.Some? then Reply(Null, true, reply.err)
      else if reply.handled then Handled(reply.out)
      else ChainResolve(members[1..], ctx, v)
  }

  function Ref(values: map<string, string>): Resolver {
    (c: Option<Context>, x: Value) => RefResolve(values, x)
  }

  function If(flag: bool): Resolver {
    (c: Option<Context>, x: Value) => IfResolve(flag, x)
  }

  function Raise(err: Error): Resolver {
    (c: Option<Context>, x: Value) => RaiseResolve(err, x)
  }

  function Chain(members: seq<Resolver>): Resolver {
    (c: Option<Context>, x: Value) => ChainResolve(members, c, x)
  }

  /** A member that neither errs nor handles the value passes it on. */
  predicate Passes(f: Resolver, ctx: Option<Context>, v: Value) {
    f(ctx, v).err.None? && !f(ctx, v).handled
  }

  // ---------------------------------------------------------------------
  // The chain

  /** The first member that errs or handles decides; an error comes back with handled set and a nil value. */
  lemma {:induction false} ChainFirstDecides(members: seq<Resolver>, ctx: Option<Context>, v: Value, i: nat)
    requires i < |members| && !Passes(members[i], ctx, v)
    requires forall j :: 0 <= j < i ==> Passes(members[j], ctx, v)
    ensures members[i](ctx, v).err.Some? ==>
              ChainResolve(members, ctx, v) == Reply(Null, true, members[i](ctx, v).err)
    ensures members[i](ctx, v).err.None? ==>
              ChainResolve(members, ctx, v) == Handled(members[i](ctx, v).out)
  {
    if i > 0 {
      assert Passes(members[0], ctx, v);
      ChainFirstDecides(members[1..], ctx, v, i - 1);
    }
  }

  /** When every member passes, the chain leaves the value unhandled and unchanged. */
  lemma {:induction false} ChainAllPass(members: seq<Resolver>, ctx: Option<Context>, v: Value)
    requires forall j :: 0 <= j < |members| ==> Passes(members[j], ctx, v)
    ensures ChainResolve(members, ctx, v) == Unhandled(v)
  {
    if members != [] {
      assert Passes(members[0], ctx, v);
      ChainAllPass(members[1..], ctx, v);
    }
  }

  /** A chain nested as the first member of another behaves as if its members were spliced in. */
  lemma {:induction false} ChainFlattens(inner: seq<Resolver>, rest: seq<Resolver>, ctx: Option<Context>, v: Value)
    ensures ChainResolve([Chain(inner)] + rest, ctx, v) == ChainResolve(inner + rest, ctx, v)
  {
    if inner == [] {
      assert inner + rest == rest;
      assert ([Chain(inner)] + rest)[1..] == rest;
    } else {
      assert (inner + rest)[1..] == inner[1..] + rest;
      assert (inner + rest)[0] == inner[0];
      assert ([Chain(inner)] + rest)[1..] == rest;
      var reply := inner[0](ctx, v);
      if reply.err.None? && !reply.handled {
        ChainFlattens(inner[1..], rest, ctx, v);
        assert ([Chain(inner[1..])] + rest)[1..] == rest;
      }
    }
  }

  /** The Ref and If strategies never both handle a value, so their order in a chain does not matter. */
  lemma RefAndIfCommute(values: map<string, string>, flag: bool, ctx: Option<Context>, v: Value)
    ensures !(RefResolve(values, v).handled && IfResolve(flag, v).handled)
    ensures ChainResolve([If(flag), Ref(values)], ctx, v) == ChainResolve([Ref(values), If(flag)], ctx, v)
  {
    if SingleEntry(v, "Ref") {
      OnlyKey(v, "Ref");
    }
    var c1 := [If(flag), Ref(values)];
    var c2 := [Ref(values), If(flag)];
    assert c1[1..] == [Ref(values)] && c2[1..] == [If(flag)];
    assert [Ref(values)][1..] == [] && [If(flag)][1..] == [];
  }

  /**
    errResolver at the head of a chain decides every walk, whatever follows
    it: a node within the cap fails with exactly its error, and only a node
    past the cap, which no resolver is asked about, comes back unchanged.
  */
  lemma RaiseDecidesWalk(err: Error, rest: seq<Resolver>, ctx: Option<Context>, v: Value, depth: int, fuel: nat)
    ensures Walk(ctx, v, Some(Chain([Raise(err)] + rest)), depth, fuel)
         == if Truncates(ctx, depth) then Resolved(v) else Failed({err})
  {
    var chain := [Raise(err)] + rest;
    assert chain[0] == Raise(err);
    ChainFirstDecides(chain, ctx, v, 0);
  }

  /** A single-entry map holds no other key. */
  lemma OnlyKey(v: Value, key: string)
    requires SingleEntry(v, key)
    ensures v.entries.Keys == {key}
  {
    var rest := v.entries.Keys - {key};
    assert v.entries.Keys == {key} + rest;
    assert |v.entries.Keys| == 1 + |rest|;
  }

  /** A Ref the table knows is substituted, and the substituted string is final. */
  lemma RefIsSubstituted(values: map<string, string>, ctx: Option<Context>, name: string, depth: int, fuel: nat)
    requires name in values && fuel >= 1
    requires !Truncates(ctx, depth)
    ensures Walk(ctx, Map(map["Ref" := Str(name)]), Some(Ref(values)), depth, fuel) == Resolved(Str(values[name]))
  {
    var node := Map(map["Ref" := Str(name)]);
    assert SingleEntry(node, "Ref");
    assert RefResolve(values, node) == Handled(Str(values[name]));
    assert Walk(ctx, Str(values[name]), Some(Ref(values)), depth + 1, fuel - 1) == Resolved(Str(values[name]));
  }
}

/** The ResolveAll scenarios of parser/resolve_test.go, stated over the walk. */
module ResolveScenarios {
  import opened Wrappers
  import opened Values
  import opened Resolve
  import opened Strategies

  function Entry(key: string, v: Value): Value {
    Map(map[key := v])
  }

  const Env: Value := Entry("Ref", Str("Env"))
  const EnvTable: map<string, string> := map["Env" := "dev"]

  const IfInput: Value :=
    Entry("Value", Entry("Fn::If", List([Str("Cond"), Env, Str("fallback")])))

  /** A one-entry map that the resolver leaves alone resolves to the map of its resolved value. */
  lemma EntryResolves(ctx: Option<Context>, r: Option<Resolver>, depth: int, child: int, fuel: nat, key: string, v: Value, w: Value)
    requires !Truncates(ctx, depth) && child == depth + 1
    requires Offer(r, ctx, Entry(key, v)) == Unhandled(Entry(key, v))
    requires Walk(ctx, v, r, child, fuel) == Resolved(w)
    ensures Walk(ctx, Entry(key, v), r, depth, fuel) == Resolved(Entry(key, w))
  {
    UnhandledMapResolvesTo(ctx, map[key := v], r, depth, fuel, map[key := w]);
  }

  /** Under the chain [If(true), Ref], {"Ref": "Env"} two levels down becomes the final string "dev". */
  lemma EnvReenters(fuel: nat)
    requires fuel >= 1
    ensures Walk(Some(Context(10)), Env, Some(Chain([If(true), Ref(EnvTable)])), 2, fuel) == Resolved(Str("dev"))
  {
    var ctx := Some(Context(10));
    var r := Some(Chain([If(true), Ref(EnvTable)]));
    var chain := [If(true), Ref(EnvTable)];
    assert chain[1..] == [Ref(EnvTable)] && [Ref(EnvTable)][1..] == [];
    // the substituted string is final
    ChainAllPass(chain, ctx, Str("dev"));
    assert Walk(ctx, Str("dev"), r, 3, fuel - 1) == Resolved(Str("dev"));
    // {"Ref": "Env"} is handled by the second member
    assert !IfResolve(true, Env).handled;
    ChainFirstDecides(chain, ctx, Env, 1);
  }

  /** The Fn::If one level down is handled by the first member, and what it selects is walked again. */
  lemma CallReenters(fuel: nat)
    requires fuel >= 2
    ensures Walk(Some(Context(10)), IfInput.entries["Value"], Some(Chain([If(true), Ref(EnvTable)])), 1, fuel)
         == Resolved(Str("dev"))
  {
    var ctx := Some(Context(10));
    var chain := [If(true), Ref(EnvTable)];
    var call := IfInput.entries["Value"];
    EnvReenters(fuel - 1);
    assert IsIfCall(call);
    ChainFirstDecides(chain, ctx, call, 0);
  }

  /** Fn::If selects a Ref, and the replacement is itself resolved: {"Value": "dev"}. */
  lemma RefAndIfReenter(fuel: nat)
    requires fuel >= 2
    ensures Walk(Some(Context(10)), IfInput, Some(Chain([If(true), Ref(EnvTable)])), 0, fuel)
         == Resolved(Entry("Value", Str("dev")))
  {
    var ctx := Some(Context(10));
    var chain := [If(true), Ref(EnvTable)];
    CallReenters(fuel);
    // the outer map is handled by neither member
    assert !IsIfCall(IfInput) && !SingleEntry(IfInput, "Ref");
    ChainAllPass(chain, ctx, IfInput);
    EntryResolves(ctx, Some(Chain(chain)), 0, 1, fuel, "Value", IfInput.entries["Value"], Str("dev"));
  }

  const DeepInput: Value := Entry("outer", Entry("inner", Entry("Ref", Str("Deep"))))

  /** With MaxDepth 1 the Ref two levels down lies past the cap and stays an unresolved map. */
  lemma MaxDepthTruncates(fuel: nat)
    ensures Walk(Some(Context(1)), DeepInput, Some(Ref(map["Deep" := "done"])), 0, fuel) == Resolved(DeepInput)
  {
    var ctx := Some(Context(1));
    var r := Some(Ref(map["Deep" := "done"]));
    var inner := Entry("Ref", Str("Deep"));
    var middle := Entry("inner", inner);
    assert Walk(ctx, inner, r, 2, fuel) == Resolved(inner);
    assert !SingleEntry(middle, "Ref");
    var o1 := EntryOutcomes(ctx, middle.entries, r, 2, fuel);
    assert o1 == map["inner" := Resolved(inner)];
    assert CombineMap(o1).value.entries == middle.entries;
    assert Walk(ctx, middle, r, 1, fuel) == Resolved(middle);
    assert !SingleEntry(DeepInput, "Ref");
    var o0 := EntryOutcomes(ctx, DeepInput.entries, r, 1, fuel);
    assert o0 == map["outer" := Resolved(middle)];
    assert CombineMap(o0).value.entries == DeepInput.entries;
  }

  const ValueInput: Value := Entry("Value", Env)

  /** A nil resolver returns a tree equal to its input. */
  lemma NilResolverCopies(fuel: nat)
    ensures Walk(None, ValueInput, None, 0, fuel) == Resolved(ValueInput)
  {
    NilResolverIdentity(None, ValueInput, 0, fuel);
  }

  /** A nil context still resolves a top-level Ref. */
  lemma NilContextResolves(fuel: nat)
    requires fuel >= 1
    ensures Walk(None, Env, Some(Ref(EnvTable)), 0, fuel) == Resolved(Str("dev"))
  {
    RefIsSubstituted(EnvTable, None, "Env", 0, fuel);
  }

  const SliceInput: Value := List([Env, Str("keep")])

  /** List elements are resolved in place: ["dev", "keep"]. */
  lemma SliceIsTraversed(fuel: nat)
    requires fuel >= 1
    ensures Walk(None, SliceInput, Some(Ref(EnvTable)), 0, fuel) == Resolved(List([Str("dev"), Str("keep")]))
  {
    var r := Some(Ref(EnvTable));
    RefIsSubstituted(EnvTable, None, "Env", 1, fuel);
    assert Walk(None, Str("keep"), r, 1, fuel) == Resolved(Str("keep"));
    var outs := ItemOutcomes(None, SliceInput.items, r, 1, fuel);
    assert outs == [Resolved(Str("dev")), Resolved(Str("keep"))];
    assert CombineList(outs).value.items == [Str("dev"), Str("keep")];
  }

  /** An error raised inside a chain is what the walk returns, verbatim. */
  lemma ResolverErrorSurfaces(fuel: nat)
    ensures Walk(Some(Context(10)), Entry("Ref", Str("fail")), Some(Chain([Raise(Error("boom"))])), 0, fuel)
         == Failed({Error("boom")})
  {
  }

  /** ResolveAll on that input fails with exactly that error. */
  method ResolverErrorIsReturned() returns (res: WalkResult)
    ensures res == Fail(Error("boom"))
  {
    res := ResolveAll(Some(Context(10)), Entry("Ref", Str("fail")), Some(Chain([Raise(Error("boom"))])), 11);
    ResolverErrorSurfaces(11);
  }
}
