/**
  The tag-normalizing decoder of the parser package: a YAML node tree
  (kind, tag, scalar text, children) becomes a template value, with the
  CloudFormation shorthand tags (`!Ref x`, `!If [..]`, `!Sub {..}`) turned
  into the single-key maps of the long form ({"Ref": x}, {"Fn::If": [..]},
  {"Fn::Sub": {..}}).
*/
module Decode {
  import opened Wrappers
  import opened Values

  datatype Kind = DocumentNode | SequenceNode | MappingNode | ScalarNode

  /** A yaml.Node as the decoder reads it: kind, tag, scalar text and children. */
  datatype Node = Node(kind: Kind, tag: string, value: string, content: seq<Node>)

  // ---------------------------------------------------------------------
  // Shorthand tags

  /** The thirteen shorthand tags and the long-form keys they stand for. */
  const IntrinsicTable: map<string, string> := map[
    "!Ref" := "Ref",
    "!Condition" := "Condition",
    "!Sub" := "Fn::Sub",
    "!GetAtt" := "Fn::GetAtt",
    "!ImportValue" := "Fn::ImportValue",
    "!Join" := "Fn::Join",
    "!Equals" := "Fn::Equals",
    "!And" := "Fn::And",
    "!Or" := "Fn::Or",
    "!Not" := "Fn::Not",
    "!Select" := "Fn::Select",
    "!Split" := "Fn::Split",
    "!If" := "Fn::If"
  ]

  /** The key a shorthand tag stands for, looked up in the table. */
  function IntrinsicKey(tag: string): Option<string> {
    if tag in IntrinsicTable then Some(IntrinsicTable[tag]) else None
  }

  /** The closed set of canonical intrinsic keys. */
  const CanonicalKeys: set<string> := {
    "Ref", "Condition", "Fn::Sub", "Fn::GetAtt", "Fn::ImportValue", "Fn::Join", "Fn::Equals",
    "Fn::And", "Fn::Or", "Fn::Not", "Fn::Select", "Fn::Split", "Fn::If"
  }

  /** The table yields nothing but canonical keys. */
  lemma TableYieldsCanonicalKey(tag: string)
    requires tag in IntrinsicTable
    ensures IntrinsicTable[tag] in CanonicalKeys
  {
  }

  /** Distinct shorthand tags stand for distinct keys. */
  lemma TableIsInjective(t1: string, t2: string)
    requires t1 in IntrinsicTable && t2 in IntrinsicTable
    requires IntrinsicTable[t1] == IntrinsicTable[t2]
    ensures t1 == t2
  {
  }

  /** No core-schema tag (`!!str`, `!!int`, `!!map`, ...) is a shorthand. */
  lemma CoreTagIsNotShorthand(tag: string)
    requires |tag| > 1 && tag[0] == '!' && tag[1] == '!'
    ensures IntrinsicKey(tag).None?
  {
  }

  /** The empty tag of a hand-built node is no shorthand either. */
  lemma EmptyTagIsNotShorthand()
    ensures IntrinsicKey("").None?
  {
    assert forall t :: t in IntrinsicTable ==> |t| > 0;
  }

  // ---------------------------------------------------------------------
  // Scalars

  /** strconv.ParseBool. */
  function ParseBool(s: string): (r: Option<bool>)
    ensures r == Some(true) <==> s in {"1", "t", "T", "TRUE", "true", "True"}
    ensures r == Some(false) <==> s in {"0", "f", "F", "FALSE", "false", "False"}
  {
    if s in {"1", "t", "T", "TRUE", "true", "True"} then Some(true)
    else if s in {"0", "f", "F", "FALSE", "false", "False"} then Some(false)
    else None
  }

  /** strconv.ParseBool reads back the text fmt.Sprint renders a boolean as. */
  lemma ParseBoolReadsSprint(b: bool)
    ensures Sprint(Bool(b)).Some? && ParseBool(Sprint(Bool(b)).value) == Some(b)
  {
  }

  /** The text with one leading sign dropped. */
  function Unsigned(s: string): string {
    if |s| > 0 && (s[0] == '-' || s[0] == '+') then s[1..] else s
  }

  /** The index of the first '.', or the length when there is none. */
  function DotIndex(s: string): (i: nat)
    ensures i <= |s|
    ensures forall j :: 0 <= j < i ==> s[j] != '.'
    ensures i < |s| ==> s[i] == '.'
  {
    if s == [] || s[0] == '.' then 0 else 1 + DotIndex(s[1..])
  }

  /** A decimal float literal: a sign, digits, an optional fraction, at least one digit. */
  predicate FloatLiteral(s: string) {
    var b := Unsigned(s);
    var i := DotIndex(b);
    AllDigits(b[..i]) && (i == |b| || AllDigits(b[i + 1..])) && (if i == |b| then |b| > 0 else |b| > 1)
  }

  /**
    decodeScalar: the core scalar tags give typed values; text a typed tag
    cannot parse, and every other tag, give the raw text.
  */
  function DecodeScalar(n: Node): Value {
    if n.tag == "!!int" then
      (match ParseInt(n.value)
       case Some(i) => Int(i)
       case None => Str(n.value))
    else if n.tag == "!!float" then
      (if FloatLiteral(n.value) then Float(n.value) else Str(n.value))
    else if n.tag == "!!bool" then
      (match ParseBool(n.value)
       case Some(b) => Bool(b)
       case None => Str(n.value))
    else if n.tag == "!!null" then Null
    else Str(n.value)
  }

  /**
    What each core tag makes of a scalar's text: a typed value exactly when
    the text parses under that tag, the raw text otherwise.
  */
  lemma DecodeScalarTyped(n: Node)
    ensures DecodeScalar(n).Str? ==> DecodeScalar(n).s == n.value
    ensures DecodeScalar(n).Int? <==> n.tag == "!!int" && ParseInt(n.value).Some?
    ensures DecodeScalar(n).Int? ==> ParseInt(n.value) == Some(DecodeScalar(n).i)
    ensures DecodeScalar(n).Float? <==> n.tag == "!!float" && FloatLiteral(n.value)
    ensures DecodeScalar(n).Float? ==> DecodeScalar(n).literal == n.value
    ensures DecodeScalar(n).Bool? <==> n.tag == "!!bool" && ParseBool(n.value).Some?
    ensures DecodeScalar(n).Bool? ==> ParseBool(n.value) == Some(DecodeScalar(n).b)
    ensures DecodeScalar(n).Null? <==> n.tag == "!!null"
    ensures IsScalar(DecodeScalar(n))
  {
  }

  /** asString: the key text of a decoded mapping key; nil is the empty string. */
  function AsString(v: Value): (s: string)
    ensures v.Null? ==> s == ""
    ensures v.Str? ==> s == v.s
  {
    if v.Null? then "" else Sprint(v).GetOr("")
  }

  /** A 64-bit integer key is rendered as text that parses back to it. */
  lemma AsStringOfInt(i: int)
    requires IntMin <= i <= IntMax
    ensures ParseInt(AsString(Int(i))) == Some(i)
  {
    DecimalIsParsedBack(i);
  }

  // ---------------------------------------------------------------------
  // Trees

  /** The keys of a sequence of pairs. */
  function KeysOf(pairs: seq<(string, Value)>): set<string> {
    set i | 0 <= i < |pairs| :: pairs[i].0
  }

  /** The position of a pair no later pair shares its key with. */
  predicate IsLastFor(pairs: seq<(string, Value)>, i: int) {
    0 <= i < |pairs| && forall j :: i < j < |pairs| ==> pairs[j].0 != pairs[i].0
  }

  /** The map a sequence of key/value pairs fills, later pairs overwriting earlier ones. */
  function BuildMap(pairs: seq<(string, Value)>): map<string, Value> {
    if pairs == [] then map[]
    else BuildMap(pairs[..|pairs| - 1])[pairs[|pairs| - 1].0 := pairs[|pairs| - 1].1]
  }

  /** The keys of the built map are the keys of the pairs. */
  lemma {:induction false} BuildMapKeys(pairs: seq<(string, Value)>)
    ensures BuildMap(pairs).Keys == KeysOf(pairs)
  {
    if pairs != [] {
      var init := pairs[..|pairs| - 1];
      var last := pairs[|pairs| - 1];
      BuildMapKeys(init);
      assert init + [last] == pairs;
      SnocKeys(init, last);
    }
  }

  /** A key takes the value of its last pair. */
  lemma {:induction false} BuildMapLastWins(pairs: seq<(string, Value)>, i: int)
    requires IsLastFor(pairs, i)
    ensures pairs[i].0 in BuildMap(pairs) && BuildMap(pairs)[pairs[i].0] == pairs[i].1
  {
    var init := pairs[..|pairs| - 1];
    var last := pairs[|pairs| - 1];
    if i < |init| {
      assert pairs[|pairs| - 1].0 != pairs[i].0;
      assert init[i] == pairs[i];
      forall j | i < j < |init|
        ensures init[j].0 != init[i].0
      {
        assert init[j] == pairs[j];
      }
      BuildMapLastWins(init, i);
    }
  }

  lemma SnocKeys(init: seq<(string, Value)>, last: (string, Value))
    ensures KeysOf(init + [last]) == KeysOf(init) + {last.0}
  {
    var pairs := init + [last];
    forall k | k in KeysOf(pairs) ensures k in KeysOf(init) + {last.0} {
      var i :| 0 <= i < |pairs| && pairs[i].0 == k;
      if i < |init| { assert init[i] == pairs[i]; }
    }
    forall k | k in KeysOf(init) ensures k in KeysOf(pairs) {
      var i :| 0 <= i < |init| && init[i].0 == k;
      assert pairs[i] == init[i];
    }
    assert pairs[|init|].0 == last.0;
  }

  /** decodeNode: decode by kind, then wrap in the long-form key when the tag is a shorthand. */
  function DecodeNode(n: Node): Value
    decreases n, 2
  {
    var body := DecodeKind(n);
    match IntrinsicKey(n.tag)
    case Some(key) => Map(map[key := body])
    case None => body
  }

  /** The value a node's kind gives, before any shorthand tag is applied. */
  function DecodeKind(n: Node): Value
    decreases n, 1
  {
    match n.kind
    case DocumentNode => if |n.content| == 0 then Null else DecodeNode(n.content[0])
    case SequenceNode => List(seq(|n.content|, i requires 0 <= i < |n.content| => DecodeNode(n.content[i])))
    case MappingNode => Map(BuildMap(Pairs(n)))
    case ScalarNode => DecodeScalar(n)
  }

  /** The (rendered key, decoded value) pairs of a node's children, taken two at a time. */
  function Pairs(n: Node): seq<(string, Value)>
    decreases n, 0
  {
    seq(|n.content| / 2, i requires 0 <= i < |n.content| / 2 =>
      (AsString(DecodeNode(n.content[2 * i])), DecodeNode(n.content[2 * i + 1])))
  }

  /** What DecodeYAML returns: the template's top-level map, or an error for any other root. */
  datatype Decoded = Template(entries: map<string, Value>) | RootNotMapping

  function DecodeDocument(doc: Node): (d: Decoded)
    ensures d.Template? <==> DecodeNode(doc).Map?
    ensures d.Template? ==> d.entries == DecodeNode(doc).entries
  {
    match DecodeNode(doc)
    case Map(m) => Template(m)
    case _ => RootNotMapping
  }

  // ---------------------------------------------------------------------
  // Properties of the decoder

  /** A node under a shorthand tag decodes to a one-entry map under one of the long-form keys. */
  lemma ShorthandDecodesToCanonicalKey(n: Node)
    requires n.tag in IntrinsicTable
    ensures DecodeNode(n).Map? && DecodeNode(n).entries.Keys == {IntrinsicTable[n.tag]}
    ensures IntrinsicTable[n.tag] in CanonicalKeys
  {
    TableYieldsCanonicalKey(n.tag);
  }

  /** Nodes under different shorthand tags decode to maps under different keys. */
  lemma DistinctShorthandsDecodeApart(n1: Node, n2: Node)
    requires n1.tag in IntrinsicTable && n2.tag in IntrinsicTable && n1.tag != n2.tag
    ensures DecodeNode(n1).Map? && DecodeNode(n2).Map?
    ensures DecodeNode(n1).entries.Keys != DecodeNode(n2).entries.Keys
  {
    var k1, k2 := IntrinsicTable[n1.tag], IntrinsicTable[n2.tag];
    if k1 == k2 {
      TableIsInjective(n1.tag, n2.tag);
    }
    assert k1 in DecodeNode(n1).entries.Keys && k1 !in DecodeNode(n2).entries.Keys;
  }

  /** A document decodes to its first child; an empty one to nil. */
  lemma DocumentUnwraps(doc: Node)
    requires doc.kind == DocumentNode && IntrinsicKey(doc.tag).None?
    ensures DecodeNode(doc) == if |doc.content| == 0 then Null else DecodeNode(doc.content[0])
  {
  }

  /** A sequence decodes element by element, nested sequences staying lists. */
  lemma SequenceIsElementwise(n: Node)
    requires n.kind == SequenceNode && IntrinsicKey(n.tag).None?
    ensures DecodeNode(n).List? && |DecodeNode(n).items| == |n.content|
    ensures forall i :: 0 <= i < |n.content| ==> DecodeNode(n).items[i] == DecodeNode(n.content[i])
  {
  }

  /**
    A mapping decodes to the map of its rendered keys; when a key repeats,
    the last occurrence wins, and a trailing key without a value is dropped.
  */
  lemma MappingIsPairwise(n: Node)
    requires n.kind == MappingNode && IntrinsicKey(n.tag).None?
    ensures DecodeNode(n).Map? && DecodeNode(n).entries.Keys == KeysOf(Pairs(n))
    ensures forall i :: IsLastFor(Pairs(n), i) ==>
              Pairs(n)[i].0 in DecodeNode(n).entries && DecodeNode(n).entries[Pairs(n)[i].0] == Pairs(n)[i].1
  {
    var pairs := Pairs(n);
    assert DecodeNode(n) == Map(BuildMap(pairs));
    BuildMapKeys(pairs);
    forall i | IsLastFor(pairs, i)
      ensures pairs[i].0 in BuildMap(pairs) && BuildMap(pairs)[pairs[i].0] == pairs[i].1
    {
      BuildMapLastWins(pairs, i);
    }
  }

  /** An empty mapping decodes to the empty map. */
  lemma MappingEmpty(tag: string)
    requires IntrinsicKey(tag).None?
    ensures DecodeNode(Node(MappingNode, tag, "", [])) == Map(map[])
  {
    assert Pairs(Node(MappingNode, tag, "", [])) == [];
  }

  /** Appending a key and a value to a mapping sets that key, overriding any earlier occurrence. */
  lemma MappingSnoc(tag: string, c: seq<Node>, k: Node, v: Node)
    requires IntrinsicKey(tag).None? && |c| % 2 == 0
    ensures DecodeNode(Node(MappingNode, tag, "", c)).Map?
    ensures DecodeNode(Node(MappingNode, tag, "", c + [k, v])) ==
            Map(DecodeNode(Node(MappingNode, tag, "", c)).entries[AsString(DecodeNode(k)) := DecodeNode(v)])
  {
    var before := Node(MappingNode, tag, "", c);
    var after := Node(MappingNode, tag, "", c + [k, v]);
    var p := Pairs(after);
    assert |p| == |c| / 2 + 1;
    forall i | 0 <= i < |c| / 2
      ensures p[i] == Pairs(before)[i]
    {
      assert after.content[2 * i] == c[2 * i] && after.content[2 * i + 1] == c[2 * i + 1];
    }
    assert p[..|p| - 1] == Pairs(before);
    assert after.content[2 * (|c| / 2)] == k && after.content[2 * (|c| / 2) + 1] == v;
    assert p[|p| - 1] == (AsString(DecodeNode(k)), DecodeNode(v));
  }

  /**
    A shorthand tag wraps what the node decodes to without it: the raw text
    of a scalar, or the decoded sequence or mapping.
  */
  lemma ShorthandWraps(n: Node, tag: string, key: string)
    requires IntrinsicKey(tag) == Some(key)
    ensures n.kind == ScalarNode ==> DecodeNode(n.(tag := tag)) == Map(map[key := Str(n.value)])
    ensures n.kind != ScalarNode && IntrinsicKey(n.tag).None? ==>
              DecodeNode(n.(tag := tag)) == Map(map[key := DecodeNode(n)])
  {
    var t := n.(tag := tag);
    assert DecodeNode(t) == Map(map[key := DecodeKind(t)]);
    if n.kind == ScalarNode {
      assert tag != "!!int" && tag != "!!float" && tag != "!!bool" && tag != "!!null" by {
        if |tag| > 1 && tag[1] == '!' {
          CoreTagIsNotShorthand(tag);
        }
      }
      assert DecodeKind(t) == DecodeScalar(t);
    } else {
      assert t.content == n.content && t.kind == n.kind;
      KindIgnoresTag(n, t);
    }
  }

  /** Apart from scalars, the tag plays no part in decoding by kind. */
  lemma KindIgnoresTag(n: Node, t: Node)
    requires n.kind != ScalarNode && t == n.(tag := t.tag)
    ensures DecodeKind(t) == DecodeKind(n)
  {
    assert Pairs(t) == Pairs(n);
  }

  // ---------------------------------------------------------------------
  // Round trip

  /** The values a YAML tree can carry: 64-bit integers and float literals. */
  predicate Encodable(v: Value) {
    match v
    case Int(i) => IntMin <= i <= IntMax
    case Float(lit) => FloatLiteral(lit)
    case List(items) => forall i :: 0 <= i < |items| ==> Encodable(items[i])
    case Map(m) => forall k :: k in m ==> Encodable(m[k])
    case _ => true
  }

  /** Some enumeration of a set of keys, each once. */
  ghost function Enumerate(s: set<string>): (ks: seq<string>)
    ensures |ks| == |s|
    ensures forall k :: k in s <==> k in ks
    ensures forall i, j :: 0 <= i < j < |ks| ==> ks[i] != ks[j]
    decreases |s|
  {
    if s == {} then []
    else
      var k :| k in s;
      var rest := Enumerate(s - {k});
      [k] + rest
  }

  function KeyNode(k: string): Node {
    Node(ScalarNode, "!!str", k, [])
  }

  /** The node tree yaml.v3 builds for a value, with the core schema's tags and keys in some order. */
  ghost function Encode(v: Value): Node
    decreases v, 1
  {
    match v
    case Null => Node(ScalarNode, "!!null", "null", [])
    case Bool(b) => Node(ScalarNode, "!!bool", if b then "true" else "false", [])
    case Int(i) => Node(ScalarNode, "!!int", DecimalString(i), [])
    case Float(lit) => Node(ScalarNode, "!!float", lit, [])
    case Str(s) => Node(ScalarNode, "!!str", s, [])
    case List(items) =>
      Node(SequenceNode, "!!seq", "", seq(|items|, i requires 0 <= i < |items| => Encode(items[i])))
    case Map(m) => Node(MappingNode, "!!map", "", EncodeEntries(m, Enumerate(m.Keys)))
  }

  /** The children of an encoded mapping: each listed key, followed by its encoded value. */
  ghost function EncodeEntries(m: map<string, Value>, ks: seq<string>): (c: seq<Node>)
    requires forall k :: k in ks ==> k in m
    decreases Map(m), 0
    ensures |c| == 2 * |ks|
  {
    Interleave(seq(|ks|, i requires 0 <= i < |ks| => KeyNode(ks[i])),
               seq(|ks|, i requires 0 <= i < |ks| => Encode(m[ks[i]])))
  }

  /** k0, v0, k1, v1, ... */
  function Interleave(keys: seq<Node>, vals: seq<Node>): (c: seq<Node>)
    requires |keys| == |vals|
    ensures |c| == 2 * |keys|
  {
    seq(2 * |keys|, j requires 0 <= j < 2 * |keys| => if j % 2 == 0 then keys[j / 2] else vals[j / 2])
  }

  lemma InterleaveAt(keys: seq<Node>, vals: seq<Node>, i: int)
    requires |keys| == |vals| && 0 <= i < |keys|
    ensures Interleave(keys, vals)[2 * i] == keys[i] && Interleave(keys, vals)[2 * i + 1] == vals[i]
  {
    assert (2 * i) % 2 == 0 && (2 * i) / 2 == i;
    assert (2 * i + 1) % 2 == 1 && (2 * i + 1) / 2 == i;
  }

  /** Decoding the tree of a value gives the value back. */
  lemma {:induction false} DecodeEncode(v: Value)
    requires Encodable(v)
    ensures DecodeNode(Encode(v)) == v
    decreases v, 3
  {
    match v
    case Null => CoreTagIsNotShorthand("!!null");
    case Bool(b) => CoreTagIsNotShorthand("!!bool");
    case Int(i) =>
      CoreTagIsNotShorthand("!!int");
      DecimalRoundTrip(i);
    case Float(lit) => CoreTagIsNotShorthand("!!float");
    case Str(s) => CoreTagIsNotShorthand("!!str");
    case List(items) => DecodeEncodeList(items);
    case Map(m) => DecodeEncodeMap(m);
  }

  lemma {:induction false} DecodeEncodeList(items: seq<Value>)
    requires Encodable(List(items))
    ensures DecodeNode(Encode(List(items))) == List(items)
    decreases List(items), 0
  {
    var n := Encode(List(items));
    CoreTagIsNotShorthand("!!seq");
    forall i | 0 <= i < |items|
      ensures DecodeNode(n.content[i]) == items[i]
    {
      DecodeEncode(items[i]);
    }
    assert DecodeKind(n).items == items;
  }

  lemma {:induction false} DecodeEncodeMap(m: map<string, Value>)
    requires Encodable(Map(m))
    ensures DecodeNode(Encode(Map(m))) == Map(m)
    decreases Map(m), 2
  {
    var n := Encode(Map(m));
    EncodedPairs(m);
    BuildMapOfDistinctKeys(Enumerate(m.Keys), m, Pairs(n));
    CoreTagIsNotShorthand("!!map");
    assert n.kind == MappingNode && n.tag == "!!map";
  }

  /** The pairs of an encoded map are its listed keys with their values. */
  lemma {:induction false} EncodedPairs(m: map<string, Value>)
    requires Encodable(Map(m))
    ensures |Pairs(Encode(Map(m)))| == |Enumerate(m.Keys)|
    ensures forall i :: 0 <= i < |Enumerate(m.Keys)| ==>
              Pairs(Encode(Map(m)))[i] == (Enumerate(m.Keys)[i], m[Enumerate(m.Keys)[i]])
    decreases Map(m), 1
  {
    forall i | 0 <= i < |Enumerate(m.Keys)|
      ensures Pairs(Encode(Map(m)))[i] == (Enumerate(m.Keys)[i], m[Enumerate(m.Keys)[i]])
    {
      EncodedPair(m, i);
    }
  }

  /** The i-th pair of an encoded map decodes to the i-th listed key and its value. */
  lemma {:induction false} EncodedPair(m: map<string, Value>, i: int)
    requires Encodable(Map(m)) && 0 <= i < |m|
    ensures Pairs(Encode(Map(m)))[i] == (Enumerate(m.Keys)[i], m[Enumerate(m.Keys)[i]])
    decreases Map(m), 0
  {
    var ks := Enumerate(m.Keys);
    EncodedChildren(m, i);
    KeyNodeDecodes(ks[i]);
    DecodeEncode(m[ks[i]]);
    PairAt(Encode(Map(m)), i);
  }

  lemma EncodedChildren(m: map<string, Value>, i: int)
    requires 0 <= i < |m|
    ensures |Encode(Map(m)).content| == 2 * |m|
    ensures Encode(Map(m)).content[2 * i] == KeyNode(Enumerate(m.Keys)[i])
    ensures Encode(Map(m)).content[2 * i + 1] == Encode(m[Enumerate(m.Keys)[i]])
  {
    var ks := Enumerate(m.Keys);
    var keys := seq(|ks|, j requires 0 <= j < |ks| => KeyNode(ks[j]));
    var vals := seq(|ks|, j requires 0 <= j < |ks| => Encode(m[ks[j]]));
    assert Encode(Map(m)).content == Interleave(keys, vals);
    InterleaveAt(keys, vals, i);
  }

  lemma PairAt(n: Node, i: int)
    requires 0 <= i < |n.content| / 2
    ensures Pairs(n)[i] == (AsString(DecodeNode(n.content[2 * i])), DecodeNode(n.content[2 * i + 1]))
  {
  }

  lemma KeyNodeDecodes(k: string)
    ensures DecodeNode(KeyNode(k)) == Str(k)
  {
    CoreTagIsNotShorthand("!!str");
  }

  /** Pairs listing each key of a map once, with its value, fill that map. */
  lemma BuildMapOfDistinctKeys(ks: seq<string>, m: map<string, Value>, pairs: seq<(string, Value)>)
    requires |pairs| == |ks|
    requires forall k :: k in m <==> k in ks
    requires forall i, j :: 0 <= i < j < |ks| ==> ks[i] != ks[j]
    requires forall i :: 0 <= i < |ks| ==> pairs[i] == (ks[i], m[ks[i]])
    ensures BuildMap(pairs) == m
  {
    var built := BuildMap(pairs);
    BuildMapKeys(pairs);
    forall k | k in m
      ensures k in built && built[k] == m[k]
    {
      var i :| 0 <= i < |ks| && ks[i] == k;
      assert pairs[i].0 == k;
      forall j | i < j < |pairs|
        ensures pairs[j].0 != pairs[i].0
      {
        assert pairs[j].0 == ks[j];
      }
      BuildMapLastWins(pairs, i);
    }
    forall k | k in built
      ensures k in m
    {
      assert k in KeysOf(pairs);
      var i :| 0 <= i < |pairs| && pairs[i].0 == k;
      assert ks[i] == k;
    }
  }

  /** A template encoded as a document decodes to its top-level map. */
  lemma DocumentRoundTrip(m: map<string, Value>)
    requires Encodable(Map(m))
    ensures DecodeDocument(Node(DocumentNode, "", "", [Encode(Map(m))])) == Template(m)
  {
    var root := Encode(Map(m));
    var doc := Node(DocumentNode, "", "", [root]);
    DecodeEncode(Map(m));
    EmptyTagIsNotShorthand();
    assert DecodeNode(doc) == DecodeKind(doc) == DecodeNode(root);
  }

  /** A document whose root decodes to a list or a scalar is rejected. */
  lemma NonMappingRootRejected(root: Node)
    requires IntrinsicKey(root.tag).None? && (root.kind == SequenceNode || root.kind == ScalarNode)
    ensures DecodeDocument(Node(DocumentNode, "", "", [root])) == RootNotMapping
  {
    var doc := Node(DocumentNode, "", "", [root]);
    assert DecodeNode(doc) == DecodeNode(root);
    assert !DecodeKind(root).Map?;
  }
}
