/**
  The expectations of parser/decode_test.go, over the node trees yaml.v3
  builds for the test documents (plain scalars carry the core schema's
  resolved tag: `123` is !!int, `true` !!bool, `null` !!null, text !!str).
*/
module DecodeScenarios {
  import opened Wrappers
  import opened Values
  import opened Decode

  function Text(s: string): Node {
    Node(ScalarNode, "!!str", s, [])
  }

  function Tagged(tag: string, s: string): Node {
    Node(ScalarNode, tag, s, [])
  }

  function Sequence(tag: string, items: seq<Node>): Node {
    Node(SequenceNode, tag, "", items)
  }

  function Mapping(tag: string, content: seq<Node>): Node {
    Node(MappingNode, tag, "", content)
  }

  function Document(root: Node): Node {
    Node(DocumentNode, "", "", [root])
  }

  function Long(key: string, arg: Value): Value {
    Map(map[key := arg])
  }

  /** The first pair of a mapping: a mapping of one key. */
  lemma MappingSingle(tag: string, k: Node, v: Node)
    requires IntrinsicKey(tag).None?
    ensures DecodeNode(Mapping(tag, [k, v])) == Map(map[AsString(DecodeNode(k)) := DecodeNode(v)])
  {
    MappingEmpty(tag);
    MappingSnoc(tag, [], k, v);
    assert [] + [k, v] == [k, v];
  }

  /** The document's root is a mapping that decodes to `want`. */
  lemma DocumentDecodesTo(root: Node, want: map<string, Value>)
    requires DecodeNode(root) == Map(want)
    ensures DecodeDocument(Document(root)) == Template(want)
  {
    assert DecodeNode(Document(root)) == DecodeNode(root);
  }

  /** A sequence whose children decode to `vs` decodes to the list `vs`, wrapped when tagged. */
  lemma SequenceDecodesTo(n: Node, vs: seq<Value>)
    requires n.kind == SequenceNode && |n.content| == |vs|
    requires forall i :: 0 <= i < |vs| ==> DecodeNode(n.content[i]) == vs[i]
    ensures DecodeKind(n) == List(vs)
  {
    assert DecodeKind(n).items == vs;
  }

  lemma TaggedSequenceDecodesTo(n: Node, vs: seq<Value>)
    requires n.kind == SequenceNode && |n.content| == |vs| && n.tag in IntrinsicTable
    requires forall i :: 0 <= i < |vs| ==> DecodeNode(n.content[i]) == vs[i]
    ensures DecodeNode(n) == Long(IntrinsicTable[n.tag], List(vs))
  {
    SequenceDecodesTo(n, vs);
  }

  lemma PlainSequenceDecodesTo(n: Node, vs: seq<Value>)
    requires n.kind == SequenceNode && |n.content| == |vs| && n.tag == "!!seq"
    requires forall i :: 0 <= i < |vs| ==> DecodeNode(n.content[i]) == vs[i]
    ensures DecodeNode(n) == List(vs)
  {
    CoreTagIsNotShorthand("!!seq");
    SequenceDecodesTo(n, vs);
  }

  /** A scalar under a shorthand tag decodes to the long form of its raw text. */
  lemma TaggedScalarDecodes(tag: string, s: string)
    requires tag in IntrinsicTable
    ensures DecodeNode(Tagged(tag, s)) == Long(IntrinsicTable[tag], Str(s))
  {
    var key := IntrinsicTable[tag];
    ShorthandWraps(Tagged(tag, s), tag, key);
    assert Tagged(tag, s).(tag := tag) == Tagged(tag, s);
  }

  lemma TextDecodes(s: string)
    ensures DecodeNode(Text(s)) == Str(s)
  {
    CoreTagIsNotShorthand("!!str");
  }

  /** The content of a mapping whose keys are plain text: key, value, key, value, ... */
  function Entries(keys: seq<string>, vals: seq<Node>): (c: seq<Node>)
    requires |keys| == |vals|
    ensures |c| == 2 * |keys| && |c| % 2 == 0
    decreases |keys|
  {
    if |keys| == 0 then []
    else Entries(keys[..|keys| - 1], vals[..|vals| - 1]) + [Text(keys[|keys| - 1]), vals[|vals| - 1]]
  }

  /** The map those keys give when each is bound to its decoded value, later keys winning. */
  function Zip(keys: seq<string>, want: seq<Value>): map<string, Value>
    requires |keys| == |want|
    decreases |keys|
  {
    if |keys| == 0 then map[]
    else Zip(keys[..|keys| - 1], want[..|want| - 1])[keys[|keys| - 1] := want[|want| - 1]]
  }

  lemma ZipStep(keys: seq<string>, want: seq<Value>, j: nat)
    requires |keys| == |want| && j < |keys|
    ensures Zip(keys[..j + 1], want[..j + 1]) == Zip(keys[..j], want[..j])[keys[j] := want[j]]
  {
    assert keys[..j + 1][..j] == keys[..j] && want[..j + 1][..j] == want[..j];
  }

  /** A mapping of text keys decodes to the map of its keys and decoded values. */
  lemma {:induction false} MappingOfEntries(tag: string, keys: seq<string>, vals: seq<Node>, want: seq<Value>)
    requires IntrinsicKey(tag).None? && |keys| == |vals| == |want|
    requires forall i :: 0 <= i < |vals| ==> DecodeNode(vals[i]) == want[i]
    ensures DecodeNode(Mapping(tag, Entries(keys, vals))) == Map(Zip(keys, want))
    decreases |keys|
  {
    if |keys| == 0 {
      MappingEmpty(tag);
    } else {
      var n := |keys| - 1;
      var c := Entries(keys[..n], vals[..n]);
      assert Entries(keys, vals) == c + [Text(keys[n]), vals[n]];
      assert Zip(keys, want) == Zip(keys[..n], want[..n])[keys[n] := want[n]];
      MappingOfEntries(tag, keys[..n], vals[..n], want[..n]);
      TextDecodes(keys[n]);
      MappingSnoc(tag, c, Text(keys[n]), vals[n]);
    }
  }

  // ---------------------------------------------------------------------
  // Scalar-form tags

  /** The document of the scalar-tag test, for any argument texts (the test uses MyParam, hello-${Name}, ...). */
  function ScalarTagsRoot(param: string, sub: string, att: string, exported: string, cond: string): Node {
    Mapping("!!map", Entries(["A", "B", "C", "D", "E"], ScalarTagNodes(param, sub, att, exported, cond)))
  }

  function ScalarTagsWant(param: string, sub: string, att: string, exported: string, cond: string): map<string, Value> {
    map["A" := Long("Ref", Str(param)), "B" := Long("Fn::Sub", Str(sub)),
        "C" := Long("Fn::GetAtt", Str(att)), "D" := Long("Fn::ImportValue", Str(exported)),
        "E" := Long("Condition", Str(cond))]
  }

  function ScalarTagNodes(param: string, sub: string, att: string, exported: string, cond: string): seq<Node> {
    [Tagged("!Ref", param), Tagged("!Sub", sub), Tagged("!GetAtt", att),
     Tagged("!ImportValue", exported), Tagged("!Condition", cond)]
  }

  function ScalarTagValues(param: string, sub: string, att: string, exported: string, cond: string): seq<Value> {
    [Long("Ref", Str(param)), Long("Fn::Sub", Str(sub)), Long("Fn::GetAtt", Str(att)),
     Long("Fn::ImportValue", Str(exported)), Long("Condition", Str(cond))]
  }

  lemma ScalarTagNodesDecode(param: string, sub: string, att: string, exported: string, cond: string)
    ensures var nodes, vals := ScalarTagNodes(param, sub, att, exported, cond), ScalarTagValues(param, sub, att, exported, cond);
            forall i :: 0 <= i < |nodes| ==> DecodeNode(nodes[i]) == vals[i]
  {
    var nodes := ScalarTagNodes(param, sub, att, exported, cond);
    var vals := ScalarTagValues(param, sub, att, exported, cond);
    forall i | 0 <= i < |nodes|
      ensures DecodeNode(nodes[i]) == vals[i]
    {
      if i == 0 { TaggedScalarDecodes("!Ref", param); }
      else if i == 1 { TaggedScalarDecodes("!Sub", sub); }
      else if i == 2 { TaggedScalarDecodes("!GetAtt", att); }
      else if i == 3 { TaggedScalarDecodes("!ImportValue", exported); }
      else { TaggedScalarDecodes("!Condition", cond); }
    }
  }

  lemma ScalarTagsZip(param: string, sub: string, att: string, exported: string, cond: string)
    ensures Zip(["A", "B", "C", "D", "E"], ScalarTagValues(param, sub, att, exported, cond))
         == ScalarTagsWant(param, sub, att, exported, cond)
  {
    var keys := ["A", "B", "C", "D", "E"];
    var vals := ScalarTagValues(param, sub, att, exported, cond);
    ZipStep(keys, vals, 0);
    ZipStep(keys, vals, 1);
    ZipStep(keys, vals, 2);
    ZipStep(keys, vals, 3);
    ZipStep(keys, vals, 4);
    assert keys[..5] == keys && vals[..5] == vals;
  }

  /** Scalar shorthands become single-key maps of their raw text; Condition keeps its bare key. */
  lemma ScalarTagsNormalize(param: string, sub: string, att: string, exported: string, cond: string)
    ensures DecodeDocument(Document(ScalarTagsRoot(param, sub, att, exported, cond)))
         == Template(ScalarTagsWant(param, sub, att, exported, cond))
  {
    CoreTagIsNotShorthand("!!map");
    ScalarTagNodesDecode(param, sub, att, exported, cond);
    MappingOfEntries("!!map", ["A", "B", "C", "D", "E"], ScalarTagNodes(param, sub, att, exported, cond),
                     ScalarTagValues(param, sub, att, exported, cond));
    ScalarTagsZip(param, sub, att, exported, cond);
    DocumentDecodesTo(ScalarTagsRoot(param, sub, att, exported, cond), ScalarTagsWant(param, sub, att, exported, cond));
  }

  // ---------------------------------------------------------------------
  // Sequence-form tags

  const AB: Node := Sequence("!!seq", [Text("a"), Text("b")])
  const TrueFalse: seq<Node> := [Tagged("!!bool", "true"), Tagged("!!bool", "false")]

  /** The document of the sequence-tag test. */
  const SequenceTagsRoot: Node := Mapping("!!map", Entries(SequenceTagKeys, SequenceTagNodes))

  const JoinNode: Node := Sequence("!Join", [Text(":"), AB])
  const EqualsNode: Node := Sequence("!Equals", [Text("a"), Text("b")])
  const AndNode: Node := Sequence("!And", TrueFalse)
  const OrNode: Node := Sequence("!Or", TrueFalse)
  const NotNode: Node := Sequence("!Not", [Tagged("!!bool", "true")])
  const SelectNode: Node := Sequence("!Select", [Tagged("!!int", "0"), AB])
  const SplitNode: Node := Sequence("!Split", [Text(":"), Text("a:b")])
  const IfNode: Node := Sequence("!If", [Text("Cond"), Text("yes"), Text("no")])
  const SubNode: Node := Sequence("!Sub", [Text("hello-${Name}"), Mapping("!!map", [Text("Name"), Text("world")])])
  const GetAttNode: Node := Sequence("!GetAtt", [Text("Res"), Text("Attr")])

  const ABValue: Value := List([Str("a"), Str("b")])

  const SequenceTagsWant: map<string, Value> := map[
    "A" := Long("Fn::Join", List([Str(":"), ABValue])),
    "B" := Long("Fn::Equals", ABValue),
    "C" := Long("Fn::And", List([Bool(true), Bool(false)])),
    "D" := Long("Fn::Or", List([Bool(true), Bool(false)])),
    "E" := Long("Fn::Not", List([Bool(true)])),
    "F" := Long("Fn::Select", List([Int(0), ABValue])),
    "G" := Long("Fn::Split", List([Str(":"), Str("a:b")])),
    "H" := Long("Fn::If", List([Str("Cond"), Str("yes"), Str("no")])),
    "I" := Long("Fn::Sub", List([Str("hello-${Name}"), Long("Name", Str("world"))])),
    "J" := Long("Fn::GetAtt", List([Str("Res"), Str("Attr")]))
  ]

  lemma DecodesAB()
    ensures DecodeNode(AB) == ABValue
  {
    TextDecodes("a");
    TextDecodes("b");
    PlainSequenceDecodesTo(AB, [Str("a"), Str("b")]);
  }

  lemma DecodesTrueFalse()
    ensures DecodeNode(TrueFalse[0]) == Bool(true) && DecodeNode(TrueFalse[1]) == Bool(false)
  {
    CoreTagIsNotShorthand("!!bool");
  }

  lemma DecodesSequenceTagsA()
    ensures DecodeNode(JoinNode) == SequenceTagValues[0]
  {
    DecodesAB();
    TextDecodes(":");
    TaggedSequenceDecodesTo(JoinNode, [Str(":"), ABValue]);
  }

  lemma DecodesSequenceTagsB()
    ensures DecodeNode(EqualsNode) == SequenceTagValues[1]
  {
    TextDecodes("a");
    TextDecodes("b");
    TaggedSequenceDecodesTo(EqualsNode, [Str("a"), Str("b")]);
  }

  lemma DecodesSequenceTagsCD()
    ensures DecodeNode(AndNode) == SequenceTagValues[2]
    ensures DecodeNode(OrNode) == SequenceTagValues[3]
  {
    DecodesTrueFalse();
    TaggedSequenceDecodesTo(AndNode, [Bool(true), Bool(false)]);
    TaggedSequenceDecodesTo(OrNode, [Bool(true), Bool(false)]);
  }

  lemma DecodesSequenceTagsE()
    ensures DecodeNode(NotNode) == SequenceTagValues[4]
  {
    DecodesTrueFalse();
    TaggedSequenceDecodesTo(NotNode, [Bool(true)]);
  }

  lemma DecodesSequenceTagsF()
    ensures DecodeNode(SelectNode) == SequenceTagValues[5]
  {
    DecodesAB();
    CoreTagIsNotShorthand("!!int");
    assert ParseInt("0") == Some(0);
    TaggedSequenceDecodesTo(SelectNode, [Int(0), ABValue]);
  }

  lemma DecodesSequenceTagsGH()
    ensures DecodeNode(SplitNode) == SequenceTagValues[6]
    ensures DecodeNode(IfNode) == SequenceTagValues[7]
  {
    TextDecodes(":");
    TextDecodes("a:b");
    TextDecodes("Cond");
    TextDecodes("yes");
    TextDecodes("no");
    TaggedSequenceDecodesTo(SplitNode, [Str(":"), Str("a:b")]);
    TaggedSequenceDecodesTo(IfNode, [Str("Cond"), Str("yes"), Str("no")]);
  }

  lemma DecodesSequenceTagsI()
    ensures DecodeNode(SubNode) == SequenceTagValues[8]
  {
    CoreTagIsNotShorthand("!!map");
    TextDecodes("Name");
    TextDecodes("world");
    MappingSingle("!!map", Text("Name"), Text("world"));
    TextDecodes("hello-${Name}");
    TaggedSequenceDecodesTo(SubNode, [Str("hello-${Name}"), Long("Name", Str("world"))]);
  }

  lemma DecodesSequenceTagsJ()
    ensures DecodeNode(GetAttNode) == SequenceTagValues[9]
  {
    TextDecodes("Res");
    TextDecodes("Attr");
    TaggedSequenceDecodesTo(GetAttNode, [Str("Res"), Str("Attr")]);
  }

  const SequenceTagKeys: seq<string> := ["A", "B", "C", "D", "E", "F", "G", "H", "I", "J"]
  const SequenceTagNodes: seq<Node> :=
    [JoinNode, EqualsNode, AndNode, OrNode, NotNode, SelectNode, SplitNode, IfNode, SubNode, GetAttNode]
  const SequenceTagValues: seq<Value> := [
    Long("Fn::Join", List([Str(":"), ABValue])),
    Long("Fn::Equals", ABValue),
    Long("Fn::And", List([Bool(true), Bool(false)])),
    Long("Fn::Or", List([Bool(true), Bool(false)])),
    Long("Fn::Not", List([Bool(true)])),
    Long("Fn::Select", List([Int(0), ABValue])),
    Long("Fn::Split", List([Str(":"), Str("a:b")])),
    Long("Fn::If", List([Str("Cond"), Str("yes"), Str("no")])),
    Long("Fn::Sub", List([Str("hello-${Name}"), Long("Name", Str("world"))])),
    Long("Fn::GetAtt", List([Str("Res"), Str("Attr")]))
  ]

  lemma SequenceTagNodesDecodeFirst()
    ensures forall i :: 0 <= i < 5 ==> DecodeNode(SequenceTagNodes[i]) == SequenceTagValues[i]
  {
    forall i | 0 <= i < 5
      ensures DecodeNode(SequenceTagNodes[i]) == SequenceTagValues[i]
    {
      if i == 0 { DecodesSequenceTagsA(); }
      else if i == 1 { DecodesSequenceTagsB(); }
      else if i <= 3 { DecodesSequenceTagsCD(); }
      else { DecodesSequenceTagsE(); }
    }
  }

  lemma SequenceTagNodesDecodeLast()
    ensures forall i :: 5 <= i < 10 ==> DecodeNode(SequenceTagNodes[i]) == SequenceTagValues[i]
  {
    forall i | 5 <= i < 10
      ensures DecodeNode(SequenceTagNodes[i]) == SequenceTagValues[i]
    {
      if i == 5 { DecodesSequenceTagsF(); }
      else if i <= 7 { DecodesSequenceTagsGH(); }
      else if i == 8 { DecodesSequenceTagsI(); }
      else { DecodesSequenceTagsJ(); }
    }
  }

  lemma SequenceTagNodesDecode()
    ensures forall i :: 0 <= i < |SequenceTagNodes| ==> DecodeNode(SequenceTagNodes[i]) == SequenceTagValues[i]
  {
    SequenceTagNodesDecodeFirst();
    SequenceTagNodesDecodeLast();
  }

  lemma SequenceTagsZipFirst()
    ensures Zip(SequenceTagKeys[..5], SequenceTagValues[..5])
         == map["A" := SequenceTagValues[0], "B" := SequenceTagValues[1], "C" := SequenceTagValues[2],
                "D" := SequenceTagValues[3], "E" := SequenceTagValues[4]]
  {
    ZipStep(SequenceTagKeys, SequenceTagValues, 0);
    ZipStep(SequenceTagKeys, SequenceTagValues, 1);
    ZipStep(SequenceTagKeys, SequenceTagValues, 2);
    ZipStep(SequenceTagKeys, SequenceTagValues, 3);
    ZipStep(SequenceTagKeys, SequenceTagValues, 4);
  }

  lemma SequenceTagsZip()
    ensures Zip(SequenceTagKeys, SequenceTagValues) == SequenceTagsWant
  {
    SequenceTagsZipFirst();
    ZipStep(SequenceTagKeys, SequenceTagValues, 5);
    ZipStep(SequenceTagKeys, SequenceTagValues, 6);
    ZipStep(SequenceTagKeys, SequenceTagValues, 7);
    ZipStep(SequenceTagKeys, SequenceTagValues, 8);
    ZipStep(SequenceTagKeys, SequenceTagValues, 9);
    assert SequenceTagKeys[..10] == SequenceTagKeys && SequenceTagValues[..10] == SequenceTagValues;
  }

  /** Sequence shorthands become single-key maps of their decoded arguments, nested lists kept. */
  lemma SequenceTagsNormalize()
    ensures DecodeDocument(Document(SequenceTagsRoot)) == Template(SequenceTagsWant)
  {
    CoreTagIsNotShorthand("!!map");
    SequenceTagNodesDecode();
    MappingOfEntries("!!map", SequenceTagKeys, SequenceTagNodes, SequenceTagValues);
    SequenceTagsZip();
    DocumentDecodesTo(SequenceTagsRoot, SequenceTagsWant);
  }

  // ---------------------------------------------------------------------
  // Mapping-form !Sub

  const SubMapping: Node := Mapping("!Sub", [Text("Name"), Text("world")] + [Text("Template"), Text("hello-${Name}")])
  const MappingTagsRoot: Node := Mapping("!!map", [Text("A"), SubMapping])
  const SubArgs: map<string, Value> := map["Name" := Str("world"), "Template" := Str("hello-${Name}")]

  /** The !Sub mapping, shorthand and all. */
  lemma SubMappingDecodes()
    ensures DecodeNode(SubMapping) == Long("Fn::Sub", Map(SubArgs))
  {
    CoreTagIsNotShorthand("!!map");
    TextDecodes("Name");
    TextDecodes("world");
    TextDecodes("Template");
    TextDecodes("hello-${Name}");
    var untagged := SubMapping.(tag := "!!map");
    MappingSingle("!!map", Text("Name"), Text("world"));
    MappingSnoc("!!map", [Text("Name"), Text("world")], Text("Template"), Text("hello-${Name}"));
    assert DecodeNode(untagged) == Map(SubArgs);
    ShorthandWraps(untagged, "!Sub", "Fn::Sub");
    assert untagged.(tag := "!Sub") == SubMapping;
  }

  /** A mapping under !Sub becomes {"Fn::Sub": <the decoded mapping>}. */
  lemma MappingSubNormalizes()
    ensures DecodeDocument(Document(MappingTagsRoot)) == Template(map["A" := Long("Fn::Sub", Map(SubArgs))])
  {
    CoreTagIsNotShorthand("!!map");
    TextDecodes("A");
    SubMappingDecodes();
    MappingSingle("!!map", Text("A"), SubMapping);
    DocumentDecodesTo(MappingTagsRoot, map["A" := Long("Fn::Sub", Map(SubArgs))]);
  }

  // ---------------------------------------------------------------------
  // Untagged scalars

  const BasicTypesKeys: seq<string> := ["Int", "Float", "Bool", "N"]
  const BasicTypesNodes: seq<Node> :=
    [Tagged("!!int", "123"), Tagged("!!float", "1.23"), Tagged("!!bool", "true"), Tagged("!!null", "null")]
  const BasicTypesValues: seq<Value> := [Int(123), Float("1.23"), Bool(true), Null]

  /** The document of the basic-types test. */
  const BasicTypesRoot: Node := Mapping("!!map", Entries(BasicTypesKeys, BasicTypesNodes))

  const BasicTypesWant: map<string, Value> :=
    map["Int" := Int(123), "Float" := Float("1.23"), "Bool" := Bool(true), "N" := Null]

  lemma BasicTypeNodesDecode()
    ensures forall i :: 0 <= i < |BasicTypesNodes| ==> DecodeNode(BasicTypesNodes[i]) == BasicTypesValues[i]
  {
    forall i | 0 <= i < |BasicTypesNodes|
      ensures DecodeNode(BasicTypesNodes[i]) == BasicTypesValues[i]
    {
      if i == 0 { IntScalarDecodes(); }
      else if i == 1 { FloatScalarDecodes(); }
      else if i == 2 { CoreTagIsNotShorthand("!!bool"); }
      else { CoreTagIsNotShorthand("!!null"); }
    }
  }

  lemma BasicTypesZip()
    ensures Zip(BasicTypesKeys, BasicTypesValues) == BasicTypesWant
  {
    ZipStep(BasicTypesKeys, BasicTypesValues, 0);
    ZipStep(BasicTypesKeys, BasicTypesValues, 1);
    ZipStep(BasicTypesKeys, BasicTypesValues, 2);
    ZipStep(BasicTypesKeys, BasicTypesValues, 3);
    assert BasicTypesKeys[..4] == BasicTypesKeys && BasicTypesValues[..4] == BasicTypesValues;
  }

  /** 123, 1.23, true and null decode to an integer, a float, a boolean and nil. */
  lemma BasicTypesDecode()
    ensures DecodeDocument(Document(BasicTypesRoot)) == Template(BasicTypesWant)
  {
    CoreTagIsNotShorthand("!!map");
    BasicTypeNodesDecode();
    MappingOfEntries("!!map", BasicTypesKeys, BasicTypesNodes, BasicTypesValues);
    BasicTypesZip();
    DocumentDecodesTo(BasicTypesRoot, BasicTypesWant);
  }

  lemma IntScalarDecodes()
    ensures DecodeNode(Tagged("!!int", "123")) == Int(123)
  {
    CoreTagIsNotShorthand("!!int");
    ParseDigits(123);
    assert Digits(123) == "123";
  }

  lemma FloatScalarDecodes()
    ensures DecodeNode(Tagged("!!float", "1.23")) == Float("1.23")
  {
    CoreTagIsNotShorthand("!!float");
    assert Unsigned("1.23") == "1.23";
    assert DotIndex("1.23") == 1 by {
      assert "1.23"[1..] == ".23";
    }
    assert "1.23"[..1] == "1" && "1.23"[2..] == "23";
    assert FloatLiteral("1.23");
  }

  // ---------------------------------------------------------------------
  // Keys, documents, errors, fallbacks

  const NonStringKeyRoot: Node := Mapping("!!map", [Tagged("!!int", "123"), Text("value")])

  /** The integer key 123 is rendered as "123". */
  lemma NonStringKeyRendered()
    ensures DecodeDocument(Document(NonStringKeyRoot)) == Template(map["123" := Str("value")])
  {
    CoreTagIsNotShorthand("!!map");
    CoreTagIsNotShorthand("!!str");
    IntScalarDecodes();
    AsStringRenders();
    assert AsString(DecodeNode(NonStringKeyRoot.content[0])) == "123";
    TextDecodes("value");
    MappingSingle("!!map", Tagged("!!int", "123"), Text("value"));
    DocumentDecodesTo(NonStringKeyRoot, map["123" := Str("value")]);
  }

  /** A document whose root is the sequence [a, b] is rejected. */
  lemma SequenceRootRejected()
    ensures DecodeDocument(Document(Sequence("!!seq", [Text("a"), Text("b")]))) == RootNotMapping
  {
    CoreTagIsNotShorthand("!!seq");
    NonMappingRootRejected(Sequence("!!seq", [Text("a"), Text("b")]));
  }

  /** A hand-built document node around {A: B} decodes to that map. */
  lemma DocumentNodeUnwraps()
    ensures DecodeNode(Node(DocumentNode, "", "", [Mapping("", [Text("A"), Text("B")])])) == Long("A", Str("B"))
  {
    EmptyTagIsNotShorthand();
    TextDecodes("A");
    TextDecodes("B");
    MappingSingle("", Text("A"), Text("B"));
  }

  /** Text a typed tag cannot parse, and an unknown tag, give the raw text. */
  lemma ScalarFallbacks()
    ensures DecodeScalar(Tagged("!!int", "nope")) == Str("nope")
    ensures DecodeScalar(Tagged("!!float", "nope")) == Str("nope")
  {
    assert !IsDigit('n');
    assert DotIndex("nope") == 4;
  }

  /** A boolean tag over text ParseBool rejects, and an unknown tag, give the raw text too. */
  lemma OtherScalarFallbacks()
    ensures DecodeScalar(Tagged("!!bool", "maybe")) == Str("maybe")
    ensures DecodeScalar(Tagged("!Unknown", "value")) == Str("value")
  {
  }

  /** asString renders nil as the empty string and 123 as "123". */
  lemma AsStringRenders()
    ensures AsString(Null) == ""
    ensures AsString(Int(123)) == "123"
  {
    assert DecimalString(123) == "123";
  }
}
