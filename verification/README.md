# ask — a Dafny model of safe navigation through decoded trees

`ask` is a small Go library for reaching into untyped, decoded data (the
`map[string]interface{}` / `[]interface{}` trees that a JSON decoder produces)
without a cascade of type assertions. A lookup such as
`For(source, "a[0].b").Int(5)` is made of four steps, and this project models
each of them as pure Dafny functions over an immutable tree:

- **the path parser** (`path_syntax.dfy`, module `PathSyntax`): the string
  `a[0].b` becomes the segment list `[Key("a"), Index(0), Key("b")]`. The empty
  path is the empty list. Malformed text such as `---` is `None`. `Render` is
  the parser's partner: it prints a segment list back as a path, and
  `ParseRender` proves the round trip;
- **the traversal engine** (`traversal.dfy`, module `Traversal`): the segments
  are folded over a tree. A key applies only to a mapping that holds it, and an
  index only to a sequence with `0 <= i < |s|`. Anything else is a miss.
  `Lookup` is the loop form and is proved equal to the recursive `Resolve`;
- **the answer** (`answer.dfy`, module `Answers`): `For`, `ForArgs`, and the
  chaining calls `Path` and `PathArgs` on an answer. `Exists` and `Value` read
  an answer. A found nil and a miss are the same answer. An absent answer stays
  absent through any further navigation;
- **typed extraction** (`extract.dfy`, module `Extract`): `String`, `Bool`,
  `Int`, `Uint`, `Slice` and `Map`. Each returns `(converted, true)`, or
  `(default, false)` when the value is missing, has the wrong kind, or is out
  of range.

The data model lives in `values.dfy` (module `Values`):

- a `Tree` has a case for nil, text, boolean, signed and unsigned 64-bit
  integers, floating point (as an exact real), sequences and text-keyed
  mappings;
- a `Segment` is a key or an index.

`wrappers.dfy` holds the `Option` type. `scenarios.dfy` (module `Scenarios`)
replays the repository's test tables and its end-to-end example against the
model, one test case per lemma.

The path grammar the model fixes is as follows:

- a path is `.`-separated steps;
- a step is an optional identifier made of the characters `[A-Za-z0-9_]`,
  followed by zero or more bracket groups `[n]` with `n` a non-empty run of
  decimal digits;
- a step must not be empty;
- the empty path denotes the root;
- any other character, an empty step (`a..b`, `.a`, `a.`), or a bad bracket
  group makes the whole path malformed.

Explicit arguments to `ForArgs`/`PathArgs` are never parsed:

- a text argument is one key, verbatim, even when it contains a dot;
- the empty text argument stands for no step;
- a signed integer argument is an index;
- an argument of any other kind makes the lookup a miss.

## Model

| member | source | states |
|---|---|---|
| PathSyntax.ParseRender | ask_test.go:19-35 | Every segment list the grammar can spell, printed as a path, parses back to exactly that list, so `a[0].b`, `a[1].b` and `d[1]` each denote their key/index/key segments |
| PathSyntax.ParseKey | ask_test.go:167-168 | A bare identifier such as `string` parses to the single key of that name |
| PathSyntax.ParseKeyIndex | ask_test.go:110-111 | An identifier with one bracket group, such as `a[0]`, parses to that key followed by that index |
| PathSyntax.Parse | ask_test.go:19-47 | The empty segment list, which denotes the root, comes from the empty path and from no other path. The round trip is ParseRender, the rejections are the ParseRejects lemmas, and ParseSpellable bounds what a parse can yield |
| PathSyntax.ParseSpellable | ask_test.go:19-35 | Every parsed key is a non-empty identifier and every parsed index is a natural number, so every parse result can be printed back |
| PathSyntax.ParseRejectsStrayChar | ask_test.go:43-47 | A path containing any character outside identifiers, digits, brackets and dots, such as the `-` of `---`, is malformed |
| PathSyntax.ParseRejectsLeadingDot | ask_test.go:43-47 | A path that starts with a dot (`.a`) is malformed: its first step is empty |
| PathSyntax.ParseRejectsDoubledDot | ask_test.go:43-47 | A path with two dots in a row (`a..b`) is malformed: the step between them is empty |
| PathSyntax.ParseRejectsTrailingDot | ask_test.go:43-47 | A path that ends with a dot (`a.`) is malformed: its last step is empty |
| PathSyntax.ParseBrackets | ask_test.go:19-47 | Every path that parses has the bracket shape: each `[` opens one or more digits closed by `]`, and each `]` closes a digit and is followed by `[`, `.` or the end |
| PathSyntax.ParseRejectsBadGroup | ask_test.go:43-47 | A `[` not followed by one or more digits and then `]` makes the path malformed (`a[b]`, `a[]`, `a[0`) |
| PathSyntax.ParseRejectsStrayClose | ask_test.go:43-47 | A `]` with no digit right before it makes the path malformed (`a]`, `]`) |
| PathSyntax.ParseRejectsTextAfterGroup | ask_test.go:43-47 | Anything but `[` or `.` right after a `]` makes the path malformed (`a[0]b`) |
| PathSyntax.ParseDot | ask_test.go:110-114 | Joining two non-empty paths with a dot concatenates their segment lists, and the join is malformed exactly when one side is |
| PathSyntax.SplitJoin | ask_test.go:20 | Splitting a path at its dots and joining the pieces with dots gives the path back |
| PathSyntax.SplitPiecesDotFree | ask_test.go:20 | No piece of a split path contains a dot |
| PathSyntax.DigitsOfNatStr | ask_test.go:20-32 | The digits inside a bracket group read back as the index that was written, for every natural number |
| Traversal.Resolve | ask_test.go:19-35 | A walk of one or more steps can only succeed from a mapping or a sequence. Each step is ResolveOneStep, composition is ResolveAppend, and the loop form is Lookup |
| Traversal.ResolveOneStep | ask_test.go:19-35 | One step succeeds iff it is a key the current mapping holds or an index within the current sequence's bounds, and then yields that entry or element |
| Traversal.ResolveAppend | ask_test.go:110-114 | Walking `a + b` is walking `a`, then walking `b` from where `a` ended; a miss in `a` is a miss overall |
| Traversal.ScalarHasNoPath | ask_test.go:116-120 | From a scalar or nil, any non-empty segment list misses |
| Traversal.ResolvePrefix | example_test.go:24-26 | A walk that reaches its end has reached every intermediate point |
| Traversal.LastStepMiss | example_test.go:24-26 | A walk that gets through every step but misses at the last key is a plain miss; no partial value survives |
| Traversal.Lookup | ask_test.go:19-23 | The loop that keeps a current value and steps through the segments computes exactly the recursive traversal |
| Answers.Exists | ask_test.go:520-550 | An answer is absent exactly when it is the nil answer: a miss and a found nil are one and the same answer (see also Wrap and FoundIffResolved) |
| Answers.Value | ask_test.go:555-577 | The value of an absent answer is nil, and an answer is determined by its value |
| Answers.Wrap | ask_test.go:540-544 | An outcome is found iff it is present and not nil; a found nil and a miss both give the nil value |
| Answers.ArgsToSegments | ask_test.go:62-96 | Explicit arguments form a segment list iff every one is text or a signed integer. When none is the empty text, each text argument becomes its key verbatim and each signed integer its index, one segment per argument, in order |
| Answers.ArgsAppend | ask_test.go:140-144 | The segments of concatenated argument lists are the concatenation of their segments |
| Answers.For | ask_test.go:43-47 | A malformed path is a miss; a found value is what traversing the parsed segments reaches |
| Answers.ForArgs | ask_test.go:92-96 | An unusable argument is a miss; a found value is what traversing the argument segments reaches |
| Answers.Path | ask_test.go:100-126 | Chaining the empty path returns the answer unchanged; an absent answer stays absent; a found result is what traversing the parsed path reaches from the answer's value. Composition is PathComposes |
| Answers.PathArgs | ask_test.go:128-158 | Chaining no arguments returns the answer unchanged; an absent answer stays absent; a found result is what traversing the argument segments reaches from the answer's value. Composition is PathArgsComposes and ForThenPathArgs |
| Answers.EmptyPathIsIdentity | ask_test.go:37-41 | `For(s, "")`, `ForArgs(s, "")`, `.Path("")` and `.PathArgs("")` return the current value unchanged |
| Answers.FoundIffResolved | ask_test.go:528-550 | A lookup by a well-formed path exists iff traversal reaches a non-nil value; it returns that value, and a miss returns nil |
| Answers.AbsencePropagates | ask_test.go:116-120 | An absent answer stays absent through any further `Path` or `PathArgs` |
| Answers.WrapThen | ask_test.go:116-120 | Continuing from an answer with any segment list is continuing the traversal outcome itself, with misses and nils both absorbing |
| Answers.PathComposes | ask_test.go:110-114 | `For(s, p).Path(q)` is `For(s, p + "." + q)` for all non-empty `p` and `q` |
| Answers.PathArgsComposes | ask_test.go:146-150 | `ForArgs(s, a1...).PathArgs(a2...)` is `ForArgs(s, a1..., a2...)` for all argument lists |
| Answers.ForThenPathArgs | ask_test.go:140-156 | For every path and argument list, `For(s, p).PathArgs(args...)` reaches what the parsed segments of `p` followed by the argument segments reach, and misses when either part is unusable |
| Answers.ForArgsMatchesFor | ask_test.go:62-78 | Explicit arguments that the grammar can spell look up exactly what their printed path looks up |
| Answers.ExplicitKeyIsLiteral | ask_test.go:80-84 | A non-empty explicit text argument is one key taken verbatim, dots included |
| Answers.ForRendered | ask_test.go:19-35 | Looking up a printed segment list reaches exactly what the segments reach |
| Extract.Truncate | ask_test.go:251-261 | Float-to-integer conversion drops the fractional part toward zero |
| Extract.String | ask_test.go:167-183 | Succeeds iff the value is text, returning it; otherwise returns the default |
| Extract.Bool | ask_test.go:195-217 | Succeeds iff the value is a boolean, returning it, `false` included; otherwise returns the default |
| Extract.Int | ask_test.go:233-279 | Succeeds iff the value is numeric and lies in the signed 64-bit range, returning it truncated toward zero; otherwise returns the default |
| Extract.Uint | ask_test.go:293-327 | Succeeds iff the value is numeric and lies in `[0, MaxUint64]`, returning it truncated; negatives and other kinds return the default |
| Extract.Slice | ask_test.go:396-418 | Succeeds iff the value is a sequence, returning all its elements in order; otherwise returns the default |
| Extract.Map | ask_test.go:469-485 | Succeeds iff the value is a mapping, returning exactly its entries; otherwise returns the default |
| Extract.AbsentGivesDefaults | ask_test.go:275-279 | On an absent answer every extractor returns its default verbatim with a false flag |
| Extract.FlagImpliesExists | example_test.go:20-30 | A true flag from any extractor implies the answer exists, so the flag alone tells a value from a fallback |
| Extract.IntUintAgree | ask_test.go:233-327 | Where `Int` and `Uint` both succeed they return the same number; on integers both succeed exactly on `[0, MaxInt64]` |
| Extract.KindsExclusive | ask_test.go:173-177 | At most one of the kind-strict extractors succeeds on any value |
| Scenarios.ForReachesNested | ask_test.go:19-23 | `For(s, "a[0].b")` is 100 |
| Scenarios.ForIndexOutOfRange | ask_test.go:25-29 | `For(s, "a[1].b")` is nil |
| Scenarios.ForMissingKeyBeforeIndex | ask_test.go:31-35 | `For(s, "d[1]")` is nil |
| Scenarios.ForEmptyPath | ask_test.go:37-41 | `For(s, "")` is the source |
| Scenarios.ForMalformedPath | ask_test.go:43-47 | `For(s, "---")` is nil |
| Scenarios.ForArgsReaches | ask_test.go:62-66 | `ForArgs(s, "a", 0, "b")` is 100 |
| Scenarios.ForArgsMisses | ask_test.go:68-78 | `ForArgs(s, "a", 1, "b")` and `ForArgs(s, "d", 1)` are nil |
| Scenarios.ForArgsDottedKey | ask_test.go:80-84 | `ForArgs(s, "a", 0, "c.d")` is true |
| Scenarios.ForArgsEmptyAndOddKeys | ask_test.go:86-96 | `ForArgs(s, "")` is the source and `ForArgs(s, "---")` is nil |
| Scenarios.HyphenatedKeyNotByPath | ask_test.go:43-47 | A key holding a `-` cannot be reached by path: `For(m, "first-name")` is nil even when `m` holds that key |
| Scenarios.HyphenatedKeyByArgs | ask_test.go:80-84 | An explicit argument still reaches the value under a hyphenated key |
| Scenarios.PathReachesNested | ask_test.go:110-114 | `For(s, "a[0]").Path("b")` is 100 |
| Scenarios.PathAfterMiss | ask_test.go:116-120 | `For(s, "a[1]").Path("b")` is nil |
| Scenarios.PathEmptyAfterEmpty | ask_test.go:122-126 | `For(s, "").Path("")` is the source |
| Scenarios.PathArgsReachesNested | ask_test.go:140-144 | `For(s, "a").PathArgs(0, "b")` is 100 |
| Scenarios.PathArgsAfterMiss | ask_test.go:146-150 | `For(s, "a[1]").PathArgs("b")` is nil |
| Scenarios.PathArgsEmptyAfterEmpty | ask_test.go:152-156 | `For(s, "").PathArgs("")` is the source |
| Scenarios.StringConversions | ask_test.go:167-183 | `String("default")` gives ("test", true) on text, and ("default", false) on a number or nil |
| Scenarios.StringOfText | ask_test.go:167-171 | `For(s, "string").String("default")` is ("test", true) |
| Scenarios.StringOfNumber | ask_test.go:173-177 | `For(s, "number").String("default")` is ("default", false) |
| Scenarios.StringOfMiss | ask_test.go:179-183 | `For(s, "nothing").String("default")` is ("default", false) |
| Scenarios.BoolConversions | ask_test.go:195-217 | `Bool(false)` gives (true, true) and (false, true) on booleans, and (false, false) on a number or nil |
| Scenarios.BoolOfTrue | ask_test.go:195-199 | `For(s, "bool1").Bool(false)` is (true, true) |
| Scenarios.BoolOfFalse | ask_test.go:201-205 | `For(s, "bool2").Bool(false)` is (false, true) |
| Scenarios.BoolOfNumber | ask_test.go:207-211 | `For(s, "number").Bool(false)` is (false, false) |
| Scenarios.BoolOfMiss | ask_test.go:213-217 | `For(s, "nothing").Bool(false)` is (false, false) |
| Scenarios.IntConversions | ask_test.go:233-279 | `Int(5)` converts 100, -100, unsigned 100, 100.0 and -100.0, and gives (5, false) for the largest unsigned 64-bit value, text and nil |
| Scenarios.IntOfPositive | ask_test.go:233-237 | `For(s, "positive").Int(5)` is (100, true) |
| Scenarios.IntOfNegative | ask_test.go:239-243 | `For(s, "negative").Int(5)` is (-100, true) |
| Scenarios.IntOfUnsigned | ask_test.go:245-249 | `For(s, "unsigned").Int(5)` is (100, true) |
| Scenarios.IntOfFloat | ask_test.go:251-255 | `For(s, "float").Int(5)` is (100, true) |
| Scenarios.IntOfNegativeFloat | ask_test.go:257-261 | `For(s, "negative_float").Int(5)` is (-100, true) |
| Scenarios.IntOfTooBig | ask_test.go:263-267 | `For(s, "toobig").Int(5)` is (5, false) |
| Scenarios.IntOfText | ask_test.go:269-273 | `For(s, "string").Int(5)` is (5, false) |
| Scenarios.IntOfMiss | ask_test.go:275-279 | `For(s, "nothing").Int(5)` is (5, false) |
| Scenarios.UintConversions | ask_test.go:293-327 | `Uint(5)` converts 100, unsigned 100 and 100.0, and gives (5, false) for -100, text and nil |
| Scenarios.UintOfPositive | ask_test.go:293-297 | `For(s, "positive").Uint(5)` is (100, true) |
| Scenarios.UintOfUnsigned | ask_test.go:299-303 | `For(s, "unsigned").Uint(5)` is (100, true) |
| Scenarios.UintOfFloat | ask_test.go:305-309 | `For(s, "float").Uint(5)` is (100, true) |
| Scenarios.UintOfNegative | ask_test.go:311-315 | `For(s, "negative").Uint(5)` is (5, false) |
| Scenarios.UintOfText | ask_test.go:317-321 | `For(s, "string").Uint(5)` is (5, false) |
| Scenarios.UintOfMiss | ask_test.go:323-327 | `For(s, "nothing").Uint(5)` is (5, false) |
| Scenarios.SliceConversions | ask_test.go:396-418 | `Slice` of a one-element default gives 5 and 0 elements, flagged true, on sequences of those lengths, and the one-element default, flagged false, on text or nil |
| Scenarios.SliceOfFive | ask_test.go:396-400 | `For(s, "slice1").Slice(def)` has 5 elements and is flagged true; named slice types are ordinary sequences here |
| Scenarios.SliceOfEmpty | ask_test.go:402-406 | `For(s, "slice2").Slice(def)` has 0 elements and is flagged true |
| Scenarios.SliceOfText | ask_test.go:408-412 | `For(s, "string").Slice(def)` is the one-element default, flagged false |
| Scenarios.SliceOfMiss | ask_test.go:414-418 | `For(s, "nothing").Slice(def)` is the one-element default, flagged false |
| Scenarios.MapConversions | ask_test.go:469-485 | `Map` of a one-entry default gives the 2 entries of a two-key mapping, flagged true, and the default, flagged false, on text or nil |
| Scenarios.MapOfTwo | ask_test.go:469-473 | `For(s, "map").Map(def)` has 2 entries and is flagged true; named map types are ordinary mappings here |
| Scenarios.MapOfText | ask_test.go:475-479 | `For(s, "string").Map(def)` is the one-entry default, flagged false |
| Scenarios.MapOfMiss | ask_test.go:481-485 | `For(s, "nothing").Map(def)` is the one-entry default, flagged false |
| Scenarios.ExistsOfText | ask_test.go:528-532 | `For(s, "value1").Exists()` is true |
| Scenarios.ExistsOfZero | ask_test.go:534-538 | `For(s, "value2").Exists()` is true for the present zero |
| Scenarios.ExistsOfNil | ask_test.go:540-544 | `For(s, "nil").Exists()` is false: nil is the same as missing |
| Scenarios.ExistsOfMiss | ask_test.go:546-550 | `For(s, "nothing").Exists()` is false |
| Scenarios.ValueOfText | ask_test.go:561-565 | `For(s, "value1").Value()` is "test" |
| Scenarios.ValueOfZero | ask_test.go:567-571 | `For(s, "value2").Value()` is 0 |
| Scenarios.ValueOfMiss | ask_test.go:573-577 | `For(s, "nothing").Value()` is nil |
| Scenarios.ExampleReachesLeaf | example_test.go:20-21 | `a[0].b.c` walks mapping, sequence, mapping, mapping down to the decoded number 3 |
| Scenarios.ExampleConversions | example_test.go:28-30 | The decoded float 3 converts to (3, true), and a miss gives ("nothing", false) |
| Scenarios.ExampleFindsNumber | example_test.go:20-22 | `For(object, "a[0].b.c").Int(0)` is (3, true) |
| Scenarios.ExampleMissesLeaf | example_test.go:24-25 | `a[0].b.d` gets through `a[0].b` to the mapping holding only `c`, misses at the last key `d`, and so the whole walk misses |
| Scenarios.ExampleMissesLastKey | example_test.go:24-26 | `For(object, "a[0].b.d").String("nothing")` is ("nothing", false) |

## Left out

- ask.go, the implementation file, is not part of this model. The behaviour follows the library's tests and its end-to-end example. Where the tests leave a choice open, the model makes the choice named in the grammar paragraph above.
- Index-only steps: a step made only of bracket groups is accepted and yields indices with no key in front. This covers a path that begins with one (`[0].a`) and one after a dot (`a.[0]` reads the same as `a[0]`). No test fixes this case either way.
- Identifier characters: the model uses `[A-Za-z0-9_]`. The cost is that a key holding a hyphen, a space or a non-ASCII character cannot be reached by path (Scenarios.HyphenatedKeyNotByPath); only explicit arguments reach it. A wider set that excludes only `.`, `[` and `]` would pass the `---` test just as well, since the test source has no key `---`.
- Bracket groups: index text is decimal digits only, with no sign and no other spelling. Leading zeros are accepted (`[007]` is index 7).
- PathSyntax.ParseRejectsStrayClose: a `]` right after a digit but with no matching `[` (`a1]`) is rejected by the parser, but no lemma states that case.
- `Float()` is not modelled, and neither is float32 narrowing.
- Floating-point values are exact reals. NaN, the infinities and float64 rounding are not modelled.
- Extract.Int: the range check is made on the exact real. float64 rounding of values at the ±2^63 boundary, where Go's conversion is implementation-defined, is not modelled.
- Extract.Uint: the same exact-real range check at the 2^64 boundary.
- Integer kinds narrower than 64 bits (`int8` … `uint32`) are not modelled. They fold into the signed and unsigned 64-bit cases, which hold their values exactly.
- Go reflection is not modelled. Named slice and map types (`CustomSlice`, `CustomMap`) are ordinary sequences and mappings, so the custom-type tests are the same lemmas as the plain ones.
- Arguments to `ForArgs`/`PathArgs` of any kind other than text and signed integer make the lookup a miss. This is a modelling choice; unsigned integers are not accepted as indices.
- JSON decoding (`encoding/json`) and printing (`fmt`) in the example are external I/O. The decoded object is written out as a tree whose number is a float.
- The `testing.T` machinery is not modelled. Each checked case is a lemma instead.
- Answers.For: its own contract states only the malformed-path miss and the found direction. The full relation, in both directions, is Answers.FoundIffResolved.
- Answers.ForArgs: its own contract states only the unusable-argument miss and the found direction. The relation to `For` is Answers.ForArgsMatchesFor.
