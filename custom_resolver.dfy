/**
  The resolver of examples/custom_resolver/main.go: Ref looks a name up in a
  table of replacement values, Fn::If chooses a branch from a table of named
  conditions, and `run` resolves a two-entry template with it.
*/
module CustomResolver {
  import opened Wrappers
  import opened Values
  import opened Resolve
  import opened Strategies

  /**
    Reading a condition name: the name is rendered with fmt.Sprint and looked
    up; a name that is missing (or that the model cannot render) reads as
    false, as Go's zero value for a missing bool key does.
  */
  function ConditionHolds(conditions: map<string, bool>, cond: Value): (holds: bool)
    ensures holds <==> Sprint(cond).Some? && Sprint(cond).value in conditions && conditions[Sprint(cond).value]
  {
    match Sprint(cond)
    case Some(name) => name in conditions && conditions[name]
    case None => false
  }

  /** simpleResolver.Resolve. It never reports an error. */
  function SimpleResolve(refs: map<string, Value>, conditions: map<string, bool>, v: Value): (reply: Reply)
    ensures reply.err.None?
    // only single-key maps are ever handled; what is not handled comes back unchanged
    ensures reply.handled ==> v.Map? && |v.entries| == 1
    ensures !reply.handled ==> reply.out == v
    // Ref: handled exactly when the table knows the name
    ensures SingleEntry(v, "Ref") ==>
              (reply.handled <==> RefName(v).Some? && RefName(v).value in refs)
    ensures SingleEntry(v, "Ref") && reply.handled ==> reply.out == refs[RefName(v).value]
    // Fn::If: handled exactly when it has three arguments, and the condition picks the branch
    ensures SingleEntry(v, "Fn::If") ==> (reply.handled <==> IsIfCall(v))
    ensures IsIfCall(v) ==>
              reply.out == v.entries["Fn::If"].items[if ConditionHolds(conditions, v.entries["Fn::If"].items[0]) then 1 else 2]
    // nothing else is handled
    ensures !SingleEntry(v, "Ref") && !SingleEntry(v, "Fn::If") ==> !reply.handled
  {
    match v
    case Map(m) =>
      if |m| != 1 then Unhandled(v)
      else if "Ref" in m then
        OnlyKey(v, "Ref");
        (match Sprint(m["Ref"])
         case Some(name) => if name in refs then Handled(refs[name]) else Unhandled(v)
         case None => Unhandled(v))
      else if "Fn::If" !in m then Unhandled(v)
      else
        (match m["Fn::If"]
         case List(args) =>
           if |args| != 3 then Unhandled(v)
           else if ConditionHolds(conditions, args[0]) then Handled(args[1])
           else Handled(args[2])
         case _ => Unhandled(v))
    case _ => Unhandled(v)
  }

  function Simple(refs: map<string, Value>, conditions: map<string, bool>): Resolver {
    (c: Option<Context>, x: Value) => SimpleResolve(refs, conditions, x)
  }

  /** The reference tables of refResolver, as replacement values. */
  function StrRefs(values: map<string, string>): (refs: map<string, Value>)
    ensures refs.Keys == values.Keys
    ensures forall name :: name in values ==> refs[name] == Str(values[name])
  {
    map name | name in values :: Str(values[name])
  }

  /**
    simpleResolver is the chain of refResolver and ifResolver, where the flag
    the If strategy uses is the value of the condition the call names.
  */
  lemma SimpleIsRefThenIf(values: map<string, string>, conditions: map<string, bool>, flag: bool,
                          ctx: Option<Context>, v: Value)
    requires IsIfCall(v) ==> flag == ConditionHolds(conditions, v.entries["Fn::If"].items[0])
    ensures SimpleResolve(StrRefs(values), conditions, v) == ChainResolve([Ref(values), If(flag)], ctx, v)
  {
    var chain := [Ref(values), If(flag)];
    assert chain[1..] == [If(flag)] && [If(flag)][1..] == [];
    RefAndIfCommute(values, flag, ctx, v);
    var reply := SimpleResolve(StrRefs(values), conditions, v);
    if RefResolve(values, v).handled {
      ChainFirstDecides(chain, ctx, v, 0);
    } else if IfResolve(flag, v).handled {
      ChainFirstDecides(chain, ctx, v, 1);
    } else {
      ChainAllPass(chain, ctx, v);
      if SingleEntry(v, "Ref") {
        assert !reply.handled;
      }
    }
  }

  const NameCall: Value := Map(map["Ref" := Str("Stage")])
  const ModeCall: Value := Map(map["Fn::If" := List([Str("IsProd"), Str("prod"), Str("dev")])])

  /** The template of `run`. */
  const Input: Value := Map(map["Name" := NameCall, "Mode" := ModeCall])

  const Refs: map<string, Value> := map["Stage" := Str("staging")]
  const Conditions: map<string, bool> := map["IsProd" := false]

  const Expected: Value := Map(map["Name" := Str("staging"), "Mode" := Str("dev")])

  /** {"Ref": "Stage"} one level down becomes "staging". */
  lemma NameResolves(fuel: nat)
    requires fuel >= 1
    ensures Walk(Some(Context(5)), NameCall, Some(Simple(Refs, Conditions)), 1, fuel)
         == Resolved(Str("staging"))
  {
    var r := Some(Simple(Refs, Conditions));
    assert Walk(Some(Context(5)), Str("staging"), r, 2, fuel - 1) == Resolved(Str("staging"));
    assert RefName(NameCall) == Some("Stage");
  }

  /** The If one level down takes its else branch, since IsProd is false. */
  lemma ModeResolves(fuel: nat)
    requires fuel >= 1
    ensures Walk(Some(Context(5)), ModeCall, Some(Simple(Refs, Conditions)), 1, fuel)
         == Resolved(Str("dev"))
  {
    var r := Some(Simple(Refs, Conditions));
    assert Walk(Some(Context(5)), Str("dev"), r, 2, fuel - 1) == Resolved(Str("dev"));
    assert IsIfCall(ModeCall) && !ConditionHolds(Conditions, Str("IsProd"));
  }

  /** The template itself is neither a Ref nor an If, so the walk descends into it. */
  lemma InputDescends()
    ensures !Truncates(Some(Context(5)), 0)
    ensures Offer(Some(Simple(Refs, Conditions)), Some(Context(5)), Input) == Unhandled(Input)
  {
    assert |Input.entries| == 2;
  }

  /** A two-entry map that no resolver handles resolves entry by entry. */
  lemma PairMapResolves(ctx: Option<Context>, r: Option<Resolver>, depth: int, child: int, fuel: nat,
                        k1: string, v1: Value, w1: Value, k2: string, v2: Value, w2: Value)
    requires k1 != k2 && !Truncates(ctx, depth) && child == depth + 1
    requires Offer(r, ctx, Map(map[k1 := v1, k2 := v2])) == Unhandled(Map(map[k1 := v1, k2 := v2]))
    requires Walk(ctx, v1, r, child, fuel) == Resolved(w1) && Walk(ctx, v2, r, child, fuel) == Resolved(w2)
    ensures Walk(ctx, Map(map[k1 := v1, k2 := v2]), r, depth, fuel) == Resolved(Map(map[k1 := w1, k2 := w2]))
  {
    var m, want := map[k1 := v1, k2 := v2], map[k1 := w1, k2 := w2];
    assert m.Keys == {k1, k2} == want.Keys;
    forall k | k in m
      ensures Walk(ctx, m[k], r, depth + 1, fuel) == Resolved(want[k])
    {
      if k == k1 {
        assert m[k] == v1 && want[k] == w1;
      } else {
        assert m[k] == v2 && want[k] == w2;
      }
    }
    assert Offer(r, ctx, Map(m)).err.None? && !Offer(r, ctx, Map(m)).handled;
    UnhandledMapResolvesTo(ctx, m, r, depth, fuel, want);
  }

  /** The template of `run` resolves to {"Name": "staging", "Mode": "dev"} whenever one re-entry is allowed. */
  lemma RunResolves(fuel: nat)
    requires fuel >= 1
    ensures Walk(Some(Context(5)), Input, Some(Simple(Refs, Conditions)), 0, fuel) == Resolved(Expected)
  {
    InputDescends();
    NameResolves(fuel);
    ModeResolves(fuel);
    PairMapResolves(Some(Context(5)), Some(Simple(Refs, Conditions)), 0, 1, fuel,
                    "Name", NameCall, Str("staging"), "Mode", ModeCall, Str("dev"));
  }

  /**
    `run`: resolve the template with MaxDepth 5. The walk succeeds, so the
    program prints the resolved value and returns no error.
  */
  method Run() returns (res: WalkResult)
    ensures res == Ok(Expected)
  {
    res := ResolveAll(Some(Context(5)), Input, Some(Simple(Refs, Conditions)), 6);
    RunResolves(6);
  }
}
