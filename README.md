# aws-sam-parser-go: resolver walk, resolution strategies and tag-normalizing decoder

This project models the template machinery of the `parser` package in Dafny.
It has three parts.

**The resolver walk.** `ResolveAll(ctx, value, resolver)` walks a decoded
template tree.
- First it checks the depth cap.
- Then it offers the whole node to a caller-supplied `Resolver`.
- A handled node is replaced, and the walk re-enters on the replacement one level deeper.
- An unhandled map or list is rebuilt, with its values or elements walked one level deeper.
- A resolver error aborts the walk.

**The strategies.** These are the resolvers written against that interface:
- in the tests: `refResolver`, `ifResolver`, `chainResolver` and `errResolver`;
- in the custom-resolver example: `simpleResolver` and its `run`.

**The decoder.** It turns a YAML node tree into the same tree of values.
CloudFormation shorthand tags (`!Ref`, `!If`, `!Sub`, ...) become the
single-key maps of the long form.

Files:
- `values.dfy` defines:
  - `Option`;
  - the value tree `Value`, which stands for nil, bool, int, float64, string, `[]any` and `map[string]any`;
  - decimal rendering and parsing of 64-bit integers, and the part of `fmt.Sprint` the code relies on.
- `resolve.dfy` holds the walker:
  - `Walk` is its specification: the outcome of `resolveAll(ctx, v, r, depth)`;
  - `ResolveFrom`, `ResolveEntries` and `ResolveItems` are the walker with the Go map and list loops;
  - `ResolveAll` is the entry point;
  - the lemmas state the walk's properties.
- `strategies.dfy` holds the test resolvers (module `Strategies`) and the `ResolveAll` test scenarios (module `ResolveScenarios`).
- `custom_resolver.dfy` holds `simpleResolver` and `run`.
- `decode.dfy` holds the node tree, the shorthand table, `decodeScalar`, `asString` and `decodeNode`, with their properties. It also has a round trip: decoding the tree of a value gives the value back.
- `decode_scenarios.dfy` holds the expectations of the decoder tests, over the node trees yaml.v3 builds for the test documents.

Modelling choices:
- A resolver is a total function from the context and the node to the `(out, handled, err)` triple.
- Go's `nil` context and `nil` resolver are `None`.
- Termination:
  - With a positive `MaxDepth` the Go walk always terminates.
  - Without one it can re-enter for ever.
  - `Walk` therefore takes fuel, which counts re-entries only. Descent into children needs none.
  - `BoundedNeverExhausted` and `BoundedFuelIrrelevant` show that `MaxDepth + 1` re-entries always suffice, and that the fuel then does not change the answer.
  - `SelfReferenceUnboundedDiverges` shows that without a cap no fuel suffices for a self-referential resolver.
- Go visits map entries in an unspecified order and returns the first error it meets. `Walk` therefore reports the set of errors that some visiting order surfaces. `ResolveEntries` picks its next key arbitrarily and proves that the error it returns lies in that set.
- The decoder's implementation file is not part of this model. `DecodeNode` is inferred from the expectations in `parser/decode_test.go`:
  - a fixed table maps each shorthand tag to its long-form key;
  - the node is first decoded by kind, then wrapped under that key when its tag is in the table;
  - mapping keys are rendered with `asString`.

## Model

| member | source | states |
|---|---|---|
| Values.ParseInt | parser/decode_test.go:82 | strconv.Atoi: a parsed value always lies in the 64-bit `int` range |
| Values.DecimalIsParsedBack | parser/decode_test.go:206 | the decimal rendering of an integer parses back to it exactly when it lies in the 64-bit range, and fails otherwise |
| Values.DecimalRoundTrip | parser/decode_test.go:206 | rendering a 64-bit integer and parsing it back gives the same number |
| Values.Digits | parser/decode_test.go:206 | the decimal digits of a natural number, with no leading zero |
| Values.ParseDigits | parser/decode_test.go:206 | a digit string parses to the number it denotes exactly when that number fits in 64 bits |
| Values.ParseSignedDigits | parser/decode_test.go:206 | a minus sign and digits parse to the negated number exactly when it fits in 64 bits |
| Values.DigitsValueOfDigits | parser/decode_test.go:206 | the digits of a natural number denote that number |
| Values.SprintIntReadsBack | parser/resolve_test.go:25 | the name fmt.Sprint gives an integer Ref parses back to it through Atoi exactly inside the 64-bit range, and equals the name of the string holding those digits, so a lookup cannot tell 5 from "5" |
| Resolve.CombineList | parser/resolve.go:47-56 | the list loop resolves exactly when every element does, keeping length and order; otherwise its outcome is that of the first element that does not resolve |
| Resolve.CombineMap | parser/resolve.go:37-46 | the map loop resolves exactly when every entry does, under the same keys; the errors it can return are exactly those of the failing entries |
| Resolve.FirstUnresolved | parser/resolve.go:49-53 | the index of the first element that does not resolve: every earlier element resolves |
| Resolve.ResolveFrom | parser/resolve.go:21-60 | the recursive walker's result agrees with `Walk`: the same value on success, and on failure an error `Walk` allows |
| Resolve.ResolveEntries | parser/resolve.go:37-46 | filling a fresh map key by key, in any key order and returning early on error, agrees with the combined outcome of the entries |
| Resolve.ResolveItems | parser/resolve.go:47-56 | filling a fresh slice index by index, returning early on error, agrees with the combined outcome of the elements |
| Resolve.ResolveAll | parser/resolve.go:17-19 | the walk starts at depth 0; with a positive MaxDepth and MaxDepth + 1 re-entries it never runs out of fuel |
| Resolve.TruncationKeepsValue | parser/resolve.go:22-24 | past the cap the node comes back unchanged, whatever the resolver would say |
| Resolve.UnboundedIgnoresDepth | parser/resolve.go:22 | with a nil context or MaxDepth <= 0 the depth never matters |
| Resolve.ResolverErrorAborts | parser/resolve.go:26-30 | a resolver error on the node is the walk's only error |
| Resolve.ErrorsComeFromResolver | parser/resolve.go:28-30 | every error a walk returns is one the resolver returned; none is wrapped or made up |
| Resolve.ReentryWalksReplacement | parser/resolve.go:31-33 | a handled node is replaced by the walk of its replacement one level deeper; its own children are not walked |
| Resolve.UnhandledMapKeepsKeys | parser/resolve.go:37-46 | an unhandled map resolves iff all its values do, to a map with the same keys, each value walked one level deeper; a failing entry's errors are among the map's |
| Resolve.UnhandledMapResolvesTo | parser/resolve.go:37-46 | an unhandled map whose values resolve to `want` resolves to the map `want` |
| Resolve.UnhandledListKeepsLength | parser/resolve.go:47-56 | an unhandled list resolves exactly when every element does, keeping its length with element i walked one level deeper; otherwise the first unresolved element decides the outcome |
| Resolve.UnhandledScalarUnchanged | parser/resolve.go:57-58 | an unhandled scalar comes back unchanged |
| Resolve.NilResolverIdentity | parser/resolve.go:26 | with a nil resolver the walk returns a tree equal to its input, for every tree, depth and fuel |
| Resolve.BoundedNeverExhausted | parser/resolve.go:22 | with a positive MaxDepth, MaxDepth + 1 - depth re-entries always suffice |
| Resolve.FuelMonotone | parser/resolve.go:32 | more fuel never changes a walk that already has an answer |
| Resolve.FuelMonotoneEntries | parser/resolve.go:39-45 | the map case of FuelMonotone |
| Resolve.FuelMonotoneItems | parser/resolve.go:49-55 | the list case of FuelMonotone |
| Resolve.BoundedFuelIrrelevant | parser/resolve.go:22 | with a positive MaxDepth any sufficient fuel gives the same outcome |
| Resolve.SelfReferenceCutAtCap | parser/resolve.go:22-33 | a node the resolver keeps replacing by itself is cut at the cap and returned unchanged |
| Resolve.SelfReferenceUnboundedDiverges | parser/resolve.go:22-33 | without a cap that node is re-entered for ever: no fuel ends the walk |
| Strategies.RefResolve | parser/resolve_test.go:16-31 | refResolver handles exactly a single-key "Ref" map whose rendered name is in its table, returning the table's string; anything else comes back unhandled and unchanged |
| Strategies.IfResolve | parser/resolve_test.go:37-54 | ifResolver handles exactly a single-key "Fn::If" map whose argument is a list of three, returning the second argument when its flag is set and the third otherwise |
| Strategies.RaiseDecidesWalk | parser/resolve_test.go:185-191 | an errResolver at the head of a chain makes every walk within the cap fail with exactly its error, whatever members follow; a node past the cap is returned unchanged |
| Strategies.ChainFirstDecides | parser/resolve_test.go:58-67 | in a chain, the first member that errs or handles decides; an error comes back handled with a nil value |
| Strategies.ChainAllPass | parser/resolve_test.go:68 | when no member errs or handles, the chain returns the value unhandled |
| Strategies.ChainFlattens | parser/resolve_test.go:56-69 | a chain nested first in a chain behaves as its members spliced in |
| Strategies.RefAndIfCommute | parser/resolve_test.go:16-54 | Ref and If never both handle a value, so their order in a chain does not matter |
| Strategies.RefIsSubstituted | parser/resolve_test.go:141-152 | a known Ref anywhere up to and including the depth cap is replaced by its string, and the string is final |
| ResolveScenarios.RefAndIfReenter | parser/resolve_test.go:71-96 | with MaxDepth 10 the chain [if(true), ref{Env: dev}] turns {"Value": {"Fn::If": ["Cond", {"Ref": "Env"}, "fallback"]}} into {"Value": "dev"} |
| ResolveScenarios.CallReenters | parser/resolve_test.go:73-79 | the Fn::If is handled by the first member, and what it selects is walked again |
| ResolveScenarios.EnvReenters | parser/resolve_test.go:76 | {"Ref": "Env"} is handled by the second member and becomes the final "dev" |
| ResolveScenarios.EntryResolves | parser/resolve.go:37-46 | a one-entry map the resolver leaves alone resolves to the map of its resolved value |
| ResolveScenarios.MaxDepthTruncates | parser/resolve_test.go:98-123 | with MaxDepth 1 the Ref two levels down stays an unresolved map |
| ResolveScenarios.NilResolverCopies | parser/resolve_test.go:125-139 | a nil resolver and a nil context return the input |
| ResolveScenarios.NilContextResolves | parser/resolve_test.go:141-152 | a nil context still resolves a top-level Ref to "dev" |
| ResolveScenarios.SliceIsTraversed | parser/resolve_test.go:154-169 | [{"Ref": "Env"}, "keep"] becomes ["dev", "keep"] |
| ResolveScenarios.ResolverErrorSurfaces | parser/resolve_test.go:171-183 | an errResolver inside a chain makes the walk fail with exactly its error |
| ResolveScenarios.ResolverErrorIsReturned | parser/resolve_test.go:171-183 | ResolveAll on that input returns the error "boom" |
| CustomResolver.SimpleResolve | examples/custom_resolver/main.go:18-45 | never errs. Handles only single-key maps. A Ref is handled exactly when its name is known, giving its value, and is never tried as an If. A three-argument Fn::If is always handled and picks its branch by the condition. Everything else comes back unchanged. |
| CustomResolver.SimpleIsRefThenIf | examples/custom_resolver/main.go:18-45 | simpleResolver is the chain [refResolver, ifResolver], the flag being the named condition |
| CustomResolver.NameResolves | examples/custom_resolver/main.go:55 | {"Ref": "Stage"} becomes "staging" |
| CustomResolver.ModeResolves | examples/custom_resolver/main.go:56 | the If takes its else branch "dev", since IsProd is false |
| CustomResolver.InputDescends | examples/custom_resolver/main.go:19-22 | the two-entry template is not handled, so the walk descends into it |
| CustomResolver.PairMapResolves | parser/resolve.go:37-46 | a two-entry map the resolver leaves alone resolves entry by entry |
| CustomResolver.RunResolves | examples/custom_resolver/main.go:53-64 | the template of `run` resolves to {"Name": "staging", "Mode": "dev"} |
| CustomResolver.Run | examples/custom_resolver/main.go:53-71 | `run` succeeds; ResolveAll returns the resolved template and no error |
| Decode.ShorthandDecodesToCanonicalKey | parser/decode_test.go:21-77 | a node under any shorthand tag decodes to a one-entry map whose key is one of the long-form keys Ref, Condition, Fn::Sub, ... |
| Decode.DistinctShorthandsDecodeApart | parser/decode_test.go:21-77 | nodes under different shorthand tags decode to maps under different keys |
| Decode.CoreTagIsNotShorthand | parser/decode_test.go:81-92 | no core-schema tag (`!!str`, `!!int`, ...) is a shorthand |
| Decode.EmptyTagIsNotShorthand | parser/decode_test.go:143-162 | the empty tag of a hand-built node is no shorthand |
| Decode.ParseBoolReadsSprint | parser/decode_test.go:84 | strconv.ParseBool reads back the text fmt.Sprint renders either boolean as |
| Decode.DecodeScalarTyped | parser/decode_test.go:164-200 | a `!!int`, `!!float` or `!!bool` scalar is typed exactly when its text parses. `!!null` gives nil. Everything else, unparsable text included, is the raw text. |
| Decode.AsString | parser/decode_test.go:202-209 | asString renders nil as "" and a string as itself |
| Decode.AsStringOfInt | parser/decode_test.go:206-208 | an integer key is rendered as text that parses back to it |
| Decode.BuildMapKeys | parser/decode_test.go:109-121 | the decoded map's keys are exactly the rendered keys of the pairs |
| Decode.BuildMapLastWins | parser/decode_test.go:109-121 | a key takes the value of its last pair |
| Decode.DocumentUnwraps | parser/decode_test.go:143-162 | a document node decodes to its first child |
| Decode.SequenceIsElementwise | parser/decode_test.go:38-61 | a sequence decodes element by element, same length, nested lists kept |
| Decode.MappingIsPairwise | parser/decode_test.go:109-121 | a mapping decodes to the map of its rendered keys, each taking the value of its last pair |
| Decode.MappingEmpty | parser/decode_test.go:65-77 | an empty mapping decodes to the empty map |
| Decode.MappingSnoc | parser/decode_test.go:65-77 | a key and value appended to a mapping set that key, overriding an earlier occurrence |
| Decode.ShorthandWraps | parser/decode_test.go:21-77 | a shorthand tag wraps what the node decodes to without it, under the long-form key: a scalar's raw text, or the decoded sequence or mapping |
| Decode.KindIgnoresTag | parser/decode_test.go:38-77 | apart from scalars, the tag plays no part in decoding by kind |
| Decode.DecodeEncode | parser/decode_test.go:81-121 | decoding the node tree of a value (64-bit integers, float literals) gives the value back |
| Decode.DecodeEncodeList | parser/decode_test.go:38-61 | the list case of the round trip |
| Decode.DecodeEncodeMap | parser/decode_test.go:65-92 | the map case of the round trip |
| Decode.EncodedPairs | parser/decode_test.go:65-92 | the pairs of an encoded map are its keys with their values |
| Decode.BuildMapOfDistinctKeys | parser/decode_test.go:109-121 | pairs listing each key of a map once fill exactly that map |
| Decode.DocumentRoundTrip | parser/decode_test.go:143-162 | a template encoded as a document decodes to its top-level map |
| Decode.NonMappingRootRejected | parser/decode_test.go:123-141 | a document whose root is a sequence or a scalar is rejected |
| DecodeScenarios.MappingOfEntries | parser/decode_test.go:81-92 | a mapping of text keys decodes to the map of its keys and their decoded values |
| DecodeScenarios.TaggedScalarDecodes | parser/decode_test.go:21-34 | a scalar under a shorthand tag becomes the long form of its raw text |
| DecodeScenarios.TaggedSequenceDecodesTo | parser/decode_test.go:38-61 | a sequence under a shorthand tag becomes the long form of its decoded list |
| DecodeScenarios.ScalarTagsNormalize | parser/decode_test.go:21-34 | A: !Ref, B: !Sub, C: !GetAtt, D: !ImportValue and E: !Condition give {"Ref": ..}, {"Fn::Sub": ..}, {"Fn::GetAtt": ..}, {"Fn::ImportValue": ..} and {"Condition": ..} of their texts, whatever the texts are |
| DecodeScenarios.SequenceTagsNormalize | parser/decode_test.go:38-61 | the ten sequence shorthands give {"Fn::<Name>": [args]} with decoded arguments and nested lists kept |
| DecodeScenarios.MappingSubNormalizes | parser/decode_test.go:63-78 | a mapping under !Sub gives {"Fn::Sub": <the decoded mapping>} |
| DecodeScenarios.SubMappingDecodes | parser/decode_test.go:66-68 | the !Sub mapping decodes to {"Fn::Sub": {"Name": "world", "Template": "hello-${Name}"}} |
| DecodeScenarios.BasicTypesDecode | parser/decode_test.go:79-93 | 123, 1.23, true and null decode to an integer, a float, a boolean and nil |
| DecodeScenarios.IntScalarDecodes | parser/decode_test.go:82 | `!!int 123` decodes to the integer 123 |
| DecodeScenarios.FloatScalarDecodes | parser/decode_test.go:83 | `!!float 1.23` decodes to the float 1.23 |
| DecodeScenarios.NonStringKeyRendered | parser/decode_test.go:109-121 | the integer key 123 becomes the key "123" |
| DecodeScenarios.SequenceRootRejected | parser/decode_test.go:130 | a document whose root is the sequence [a, b] is rejected |
| DecodeScenarios.DocumentNodeUnwraps | parser/decode_test.go:143-162 | a hand-built document around {A: B} decodes to {"A": "B"} |
| DecodeScenarios.ScalarFallbacks | parser/decode_test.go:170-179 | `!!int nope` and `!!float nope` fall back to the text "nope" |
| DecodeScenarios.OtherScalarFallbacks | parser/decode_test.go:180-189 | `!!bool maybe` and `!Unknown value` fall back to their raw text |
| DecodeScenarios.AsStringRenders | parser/decode_test.go:202-209 | asString(nil) is "" and asString(123) is "123" |

## Left out

- YAML lexing and parsing belong to gopkg.in/yaml.v3. So do the text-level errors of DecodeYAML (the malformed `[:` and the empty input). The model starts from the node tree.
- The decoder's implementation file is not part of this model. `DecodeNode`, `DecodeScalar` and `AsString` are inferred from the test expectations.
- DecodeNode: the shorthand table is applied to every node kind alike. The tests only fix scalars, sequences and mappings.
- DecodeNode: a mapping with an odd number of children drops the trailing key; the tests do not fix this case.
- DecodeNode: alias nodes, line and column data and every other `yaml.Node` field are not modelled.
- Decode.DecodeScalarTyped: `!!int` follows strconv.Atoi (decimal, 64-bit range). Hexadecimal, octal and underscore forms are not modelled.
- Decode.DecodeScalarTyped: a float is an opaque literal of a simple decimal grammar (sign, digits, optional fraction), with no exponent, no special values and no arithmetic. Floating point is not modelled.
- Decode.AsString: renders floats, lists and maps as "". The test pins only nil and 123.
- Values.Sprint: covers nil, bool, int and string only. On any other Ref name the Ref is unhandled, and such a condition reads as false.
- The walk reports the set of errors some map visiting order can surface, since Go's map order is unspecified. Which error a given run returns is not modelled.
- Allocation of fresh containers, and their not aliasing the input, are not modelled. Values are compared structurally.
- Resolve.Walk: carries fuel for re-entries, because an unbounded Go walk can recurse for ever. `OutOfFuel` and `Exhausted` exist only in the model.
- Resolve.ResolveFrom: on `OutOfFuel` the method may return any error. Only the bounded case, where fuel never runs out, has an exact answer.
- Resolvers are total, pure functions of the context and the node. A resolver that keeps state between calls or panics is not modelled, so neither is the order in which the walk asks it.
- The printing in `run` and `main` (`fmt.Printf`, `log.Fatalf`) is I/O and is left out.
- `parser/decoder.go` is left out: it is a wrapper over the mapstructure library and the generated schema. So are its tests and the decode_resolve_model example.
