/**
  The library's tested behaviour on concrete trees: each lemma replays one
  test table of the repository (and its end-to-end example) against the model.
 */
module Scenarios {
  import opened Wrappers
  import opened Values
  import opened PathSyntax
  import opened Traversal
  import opened Answers
  import opened Extract

  // ---------------------------------------------------------------------------
  // The paths the tests use.

  lemma ParseKeyIndexLiteral(name: string, pos: nat, path: string)
    requires IsSpellable(Key(name))
    requires path == name + "[" + NatStr(pos) + "]"
    ensures Parse(path) == Some([Key(name), Index(pos)])
  {
    ParseKeyIndex(name, pos);
  }

  lemma ParseA0()
    ensures Parse("a[0]") == Some([Key("a"), Index(0)])
  {
    assert NatStr(0) == "0";
    ParseKeyIndexLiteral("a", 0, "a[0]");
  }

  lemma ParseA1()
    ensures Parse("a[1]") == Some([Key("a"), Index(1)])
  {
    assert NatStr(1) == "1";
    ParseKeyIndexLiteral("a", 1, "a[1]");
  }

  lemma ParseViaRender(segs: seq<Segment>, path: string)
    requires Renderable(segs) && Render(segs) == path
    ensures Parse(path) == Some(segs)
  {
    ParseRender(segs);
  }

  lemma RenderA0B()
    ensures Renderable([Key("a"), Index(0), Key("b")])
    ensures Render([Key("a"), Index(0), Key("b")]) == "a[0].b"
  {
    var segs := [Key("a"), Index(0), Key("b")];
    assert IsSpellable(segs[0]) && IsSpellable(segs[1]) && IsSpellable(segs[2]);
    assert NatStr(0) == "0";
    assert RenderFrom(segs[2..], false) == ".b";
    assert RenderFrom(segs[1..], false) == "[0].b";
  }

  lemma ParseA0B()
    ensures Parse("a[0].b") == Some([Key("a"), Index(0), Key("b")])
  {
    RenderA0B();
    ParseViaRender([Key("a"), Index(0), Key("b")], "a[0].b");
  }

  lemma RenderA1B()
    ensures Renderable([Key("a"), Index(1), Key("b")])
    ensures Render([Key("a"), Index(1), Key("b")]) == "a[1].b"
  {
    var segs := [Key("a"), Index(1), Key("b")];
    assert IsSpellable(segs[0]) && IsSpellable(segs[1]) && IsSpellable(segs[2]);
    assert NatStr(1) == "1";
    assert RenderFrom(segs[2..], false) == ".b";
    assert RenderFrom(segs[1..], false) == "[1].b";
  }

  lemma ParseA1B()
    ensures Parse("a[1].b") == Some([Key("a"), Index(1), Key("b")])
  {
    RenderA1B();
    ParseViaRender([Key("a"), Index(1), Key("b")], "a[1].b");
  }

  /** `a[0].b` followed by one more key. */
  lemma RenderA0BThen(k: string, path: string)
    requires IsSpellable(Key(k)) && path == "a[0].b." + k
    ensures Renderable([Key("a"), Index(0), Key("b"), Key(k)])
    ensures Render([Key("a"), Index(0), Key("b"), Key(k)]) == path
  {
    var segs := [Key("a"), Index(0), Key("b"), Key(k)];
    assert IsSpellable(segs[0]) && IsSpellable(segs[1]) && IsSpellable(segs[2]);
    assert NatStr(0) == "0";
    assert RenderFrom(segs[3..], false) == "." + k;
    assert RenderFrom(segs[2..], false) == ".b." + k;
    assert RenderFrom(segs[1..], false) == "[0].b." + k;
  }

  lemma ParseA0BC()
    ensures Parse("a[0].b.c") == Some([Key("a"), Index(0), Key("b"), Key("c")])
  {
    RenderA0BThen("c", "a[0].b.c");
    ParseViaRender([Key("a"), Index(0), Key("b"), Key("c")], "a[0].b.c");
  }

  lemma ParseA0BD()
    ensures Parse("a[0].b.d") == Some([Key("a"), Index(0), Key("b"), Key("d")])
  {
    RenderA0BThen("d", "a[0].b.d");
    ParseViaRender([Key("a"), Index(0), Key("b"), Key("d")], "a[0].b.d");
  }

  lemma ParseDashes()
    ensures Parse("---") == None
  {
    ParseRejectsStrayChar("---", 0);
  }

  // ---------------------------------------------------------------------------
  // Lookups by those paths, for any root.

  /** A lookup by a path that parses is the traversal of its segments. */
  lemma ForParsed(root: Tree, path: string, segs: seq<Segment>)
    requires Parse(path) == Some(segs)
    ensures For(root, path) == Wrap(Resolve(root, segs))
  {
  }

  /** A bare identifier path selects that key of the root. */
  lemma ForKey(root: Tree, k: string)
    requires IsSpellable(Key(k))
    ensures For(root, k) == Wrap(Child(root, Key(k)))
  {
    ParseKey(k);
    assert Resolve(root, [Key(k)]) == Child(root, Key(k));
  }

  lemma ForA0B(root: Tree)
    ensures For(root, "a[0].b") == Wrap(Resolve(root, [Key("a"), Index(0), Key("b")]))
  {
    ParseA0B();
    ForParsed(root, "a[0].b", [Key("a"), Index(0), Key("b")]);
  }

  lemma ForA1B(root: Tree)
    ensures For(root, "a[1].b") == Wrap(Resolve(root, [Key("a"), Index(1), Key("b")]))
  {
    ParseA1B();
    ForParsed(root, "a[1].b", [Key("a"), Index(1), Key("b")]);
  }

  lemma ForA0(root: Tree)
    ensures For(root, "a[0]") == Wrap(Resolve(root, [Key("a"), Index(0)]))
  {
    ParseA0();
    ForParsed(root, "a[0]", [Key("a"), Index(0)]);
  }

  lemma ForA1(root: Tree)
    ensures For(root, "a[1]") == Wrap(Resolve(root, [Key("a"), Index(1)]))
  {
    ParseA1();
    ForParsed(root, "a[1]", [Key("a"), Index(1)]);
  }

  lemma ForD1(root: Tree)
    ensures For(root, "d[1]") == Wrap(Resolve(root, [Key("d"), Index(1)]))
  {
    assert NatStr(1) == "1";
    ParseKeyIndexLiteral("d", 1, "d[1]");
    ForParsed(root, "d[1]", [Key("d"), Index(1)]);
  }

  lemma ForA0BC(root: Tree)
    ensures For(root, "a[0].b.c") == Wrap(Resolve(root, [Key("a"), Index(0), Key("b"), Key("c")]))
  {
    ParseA0BC();
    ForParsed(root, "a[0].b.c", [Key("a"), Index(0), Key("b"), Key("c")]);
  }

  lemma ForA0BD(root: Tree)
    ensures For(root, "a[0].b.d") == Wrap(Resolve(root, [Key("a"), Index(0), Key("b"), Key("d")]))
  {
    ParseA0BD();
    ForParsed(root, "a[0].b.d", [Key("a"), Index(0), Key("b"), Key("d")]);
  }

  lemma ForDashes(root: Tree)
    ensures For(root, "---") == Answer(Nil)
  {
    ParseDashes();
  }

  // ---------------------------------------------------------------------------
  // Lookups by path and by explicit arguments.

  function NestedSource(): Tree {
    Mapping(map["a" := Sequence([Mapping(map["b" := Signed(100)])])])
  }

  /** `a[0].b` walks key, index, key to the nested 100. */
  lemma ForReachesNested()
    ensures Value(For(NestedSource(), "a[0].b")) == Signed(100)
  {
    assert Resolve(NestedSource(), [Key("a"), Index(0), Key("b")]) == Some(Signed(100));
    ForA0B(NestedSource());
  }

  /** `a[1].b`: an index past the end of the sequence is a miss. */
  lemma ForIndexOutOfRange()
    ensures Value(For(NestedSource(), "a[1].b")) == Nil
  {
    assert Resolve(NestedSource(), [Key("a"), Index(1), Key("b")]) == None;
    ForA1B(NestedSource());
  }

  /** `d[1]`: a missing key before an index is a miss. */
  lemma ForMissingKeyBeforeIndex()
    ensures Value(For(NestedSource(), "d[1]")) == Nil
  {
    assert Resolve(NestedSource(), [Key("d"), Index(1)]) == None;
    ForD1(NestedSource());
  }

  /** The empty path returns the root itself. */
  lemma ForEmptyPath()
    ensures Value(For(NestedSource(), "")) == NestedSource()
  {
  }

  /** The malformed path `---` is a miss, not a failure. */
  lemma ForMalformedPath()
    ensures Value(For(NestedSource(), "---")) == Nil
  {
    ForDashes(NestedSource());
  }

  function DottedSource(): Tree {
    Mapping(map["a" := Sequence([Mapping(map["b" := Signed(100), "c.d" := Boolean(true)])])])
  }

  /** Explicit key, index, key reaches the value. */
  lemma ForArgsReaches()
    ensures Value(ForArgs(DottedSource(), [Text("a"), Signed(0), Text("b")])) == Signed(100)
  {
  }

  /** An index past the end or a missing key misses. */
  lemma ForArgsMisses()
    ensures Value(ForArgs(DottedSource(), [Text("a"), Signed(1), Text("b")])) == Nil
    ensures Value(ForArgs(DottedSource(), [Text("d"), Signed(1)])) == Nil
  {
  }

  /** The explicit key `c.d` is one literal key, dot included. */
  lemma ForArgsDottedKey()
    ensures Value(ForArgs(DottedSource(), [Text("a"), Signed(0), Text("c.d")])) == Boolean(true)
  {
  }

  /** The empty explicit key is the root; `---` is just a missing key. */
  lemma ForArgsEmptyAndOddKeys()
    ensures Value(ForArgs(DottedSource(), [Text("")])) == DottedSource()
    ensures Value(ForArgs(DottedSource(), [Text("---")])) == Nil
  {
  }

  /** A mapping whose one key holds a hyphen. */
  function HyphenSource(): Tree {
    Mapping(map["first-name" := Text("x")])
  }

  /** No path spells a hyphenated key: the path is malformed and the answer absent. */
  lemma HyphenatedKeyNotByPath()
    ensures Value(For(HyphenSource(), "first-name")) == Nil
  {
    ParseRejectsStrayChar("first-name", 5);
  }

  /** An explicit argument still reaches the value under a hyphenated key. */
  lemma HyphenatedKeyByArgs()
    ensures Value(ForArgs(HyphenSource(), [Text("first-name")])) == Text("x")
  {
  }

  lemma NestedResolvesA0()
    ensures Resolve(NestedSource(), [Key("a"), Index(0)]) == Some(Mapping(map["b" := Signed(100)]))
  {
  }

  lemma NestedAtA0()
    ensures For(NestedSource(), "a[0]") == Answer(Mapping(map["b" := Signed(100)]))
  {
    NestedResolvesA0();
    ForA0(NestedSource());
  }

  lemma InnerAtB()
    ensures For(Mapping(map["b" := Signed(100)]), "b") == Answer(Signed(100))
  {
    assert IsSpellable(Key("b"));
    ForKey(Mapping(map["b" := Signed(100)]), "b");
  }

  /** `For(s, "a[0]").Path("b")` reaches the nested 100. */
  lemma PathReachesNested()
    ensures Value(Path(For(NestedSource(), "a[0]"), "b")) == Signed(100)
  {
    NestedAtA0();
    InnerAtB();
  }

  /** `For(s, "a[1]").Path("b")` misses: the absent answer stays absent. */
  lemma PathAfterMiss()
    ensures Value(Path(For(NestedSource(), "a[1]"), "b")) == Nil
  {
    ForA1(NestedSource());
    assert Resolve(NestedSource(), [Key("a"), Index(1)]) == None;
    AbsencePropagates(For(NestedSource(), "a[1]"), "b", []);
  }

  /** `For(s, "").Path("")` is the root. */
  lemma PathEmptyAfterEmpty()
    ensures Value(Path(For(NestedSource(), ""), "")) == NestedSource()
  {
  }

  /** `For(s, "a").PathArgs(0, "b")` reaches the nested 100. */
  lemma PathArgsReachesNested()
    ensures Value(PathArgs(For(NestedSource(), "a"), [Signed(0), Text("b")])) == Signed(100)
  {
    assert IsSpellable(Key("a"));
    ForKey(NestedSource(), "a");
  }

  /** `For(s, "a[1]").PathArgs("b")` misses: the absent answer stays absent. */
  lemma PathArgsAfterMiss()
    ensures Value(PathArgs(For(NestedSource(), "a[1]"), [Text("b")])) == Nil
  {
    ForA1(NestedSource());
    assert Resolve(NestedSource(), [Key("a"), Index(1)]) == None;
    AbsencePropagates(For(NestedSource(), "a[1]"), "", [Text("b")]);
  }

  /** `For(s, "").PathArgs("")` is the root. */
  lemma PathArgsEmptyAfterEmpty()
    ensures Value(PathArgs(For(NestedSource(), ""), [Text("")])) == NestedSource()
  {
    EmptyPathIsIdentity(NestedSource(), For(NestedSource(), ""));
  }

  // ---------------------------------------------------------------------------
  // Typed extraction, one test case per lemma.

  /** Looking up a top-level key of a mapping by its bare name. */
  lemma ForTopKey(root: Tree, k: string)
    requires root.Mapping? && IsSpellable(Key(k))
    ensures For(root, k) == Answer(if k in root.entries then root.entries[k] else Nil)
  {
    ForKey(root, k);
  }

  function StringSource(): Tree {
    Mapping(map["string" := Text("test"), "number" := Signed(100)])
  }

  function BoolSource(): Tree {
    Mapping(map["bool1" := Boolean(true), "bool2" := Boolean(false), "number" := Signed(100)])
  }

  function IntSource(): Tree {
    Mapping(map["positive" := Signed(100), "negative" := Signed(-100), "unsigned" := Unsigned(100),
                "float" := Floating(100.0), "negative_float" := Floating(-100.0),
                "toobig" := Unsigned(MaxUint64), "string" := Text("test")])
  }

  function UintSource(): Tree {
    Mapping(map["positive" := Signed(100), "negative" := Signed(-100), "unsigned" := Unsigned(100),
                "float" := Floating(100.0), "string" := Text("test")])
  }

  function SliceSource(): Tree {
    Mapping(map["slice1" := Sequence(seq(5, _ => Nil)), "slice2" := Sequence([]), "string" := Text("test")])
  }

  function MapSource(): Tree {
    Mapping(map["map" := Mapping(map["value11" := Text("test"), "value12" := Text("test")]),
                "string" := Text("test")])
  }

  function ExistsSource(): Tree {
    Mapping(map["value1" := Text("test"), "value2" := Signed(0), "nil" := Nil])
  }

  function ValueSource(): Tree {
    Mapping(map["value1" := Text("test"), "value2" := Signed(0)])
  }

  // Each lookup of a top-level key, with the value it finds.

  lemma StringAtString()
    ensures For(StringSource(), "string") == Answer(Text("test"))
  {
    ForTopKey(StringSource(), "string");
  }

  lemma StringAtNumber()
    ensures For(StringSource(), "number") == Answer(Signed(100))
  {
    ForTopKey(StringSource(), "number");
  }

  lemma StringAtNothing()
    ensures For(StringSource(), "nothing") == Answer(Nil)
  {
    ForTopKey(StringSource(), "nothing");
  }

  lemma BoolAtBool1()
    ensures For(BoolSource(), "bool1") == Answer(Boolean(true))
  {
    ForTopKey(BoolSource(), "bool1");
  }

  lemma BoolAtBool2()
    ensures For(BoolSource(), "bool2") == Answer(Boolean(false))
  {
    ForTopKey(BoolSource(), "bool2");
  }

  lemma BoolAtNumber()
    ensures For(BoolSource(), "number") == Answer(Signed(100))
  {
    ForTopKey(BoolSource(), "number");
  }

  lemma BoolAtNothing()
    ensures For(BoolSource(), "nothing") == Answer(Nil)
  {
    ForTopKey(BoolSource(), "nothing");
  }

  lemma IntAtPositive()
    ensures For(IntSource(), "positive") == Answer(Signed(100))
  {
    ForTopKey(IntSource(), "positive");
  }

  lemma IntAtNegative()
    ensures For(IntSource(), "negative") == Answer(Signed(-100))
  {
    ForTopKey(IntSource(), "negative");
  }

  lemma IntAtUnsigned()
    ensures For(IntSource(), "unsigned") == Answer(Unsigned(100))
  {
    ForTopKey(IntSource(), "unsigned");
  }

  lemma IntAtFloat()
    ensures For(IntSource(), "float") == Answer(Floating(100.0))
  {
    ForTopKey(IntSource(), "float");
  }

  lemma IntAtNegativeFloat()
    ensures For(IntSource(), "negative_float") == Answer(Floating(-100.0))
  {
    ForTopKey(IntSource(), "negative_float");
  }

  lemma IntAtToobig()
    ensures For(IntSource(), "toobig") == Answer(Unsigned(MaxUint64))
  {
    ForTopKey(IntSource(), "toobig");
  }

  lemma IntAtString()
    ensures For(IntSource(), "string") == Answer(Text("test"))
  {
    ForTopKey(IntSource(), "string");
  }

  lemma IntSourceLacksNothing()
    ensures "nothing" !in IntSource().entries
  {
  }

  lemma IntAtNothing()
    ensures For(IntSource(), "nothing") == Answer(Nil)
  {
    IntSourceLacksNothing();
    ForTopKey(IntSource(), "nothing");
  }

  lemma UintAtPositive()
    ensures For(UintSource(), "positive") == Answer(Signed(100))
  {
    ForTopKey(UintSource(), "positive");
  }

  lemma UintAtNegative()
    ensures For(UintSource(), "negative") == Answer(Signed(-100))
  {
    ForTopKey(UintSource(), "negative");
  }

  lemma UintAtUnsigned()
    ensures For(UintSource(), "unsigned") == Answer(Unsigned(100))
  {
    ForTopKey(UintSource(), "unsigned");
  }

  lemma UintAtFloat()
    ensures For(UintSource(), "float") == Answer(Floating(100.0))
  {
    ForTopKey(UintSource(), "float");
  }

  lemma UintAtString()
    ensures For(UintSource(), "string") == Answer(Text("test"))
  {
    ForTopKey(UintSource(), "string");
  }

  lemma UintSourceLacksNothing()
    ensures "nothing" !in UintSource().entries
  {
  }

  lemma UintAtNothing()
    ensures For(UintSource(), "nothing") == Answer(Nil)
  {
    UintSourceLacksNothing();
    ForTopKey(UintSource(), "nothing");
  }

  lemma SliceAtSlice1()
    ensures For(SliceSource(), "slice1") == Answer(Sequence(seq(5, _ => Nil)))
  {
    ForTopKey(SliceSource(), "slice1");
  }

  lemma SliceAtSlice2()
    ensures For(SliceSource(), "slice2") == Answer(Sequence([]))
  {
    ForTopKey(SliceSource(), "slice2");
  }

  lemma SliceAtString()
    ensures For(SliceSource(), "string") == Answer(Text("test"))
  {
    ForTopKey(SliceSource(), "string");
  }

  lemma SliceAtNothing()
    ensures For(SliceSource(), "nothing") == Answer(Nil)
  {
    ForTopKey(SliceSource(), "nothing");
  }

  lemma MapAtMap()
    ensures For(MapSource(), "map") == Answer(Mapping(map["value11" := Text("test"), "value12" := Text("test")]))
  {
    ForTopKey(MapSource(), "map");
  }

  lemma MapAtString()
    ensures For(MapSource(), "string") == Answer(Text("test"))
  {
    ForTopKey(MapSource(), "string");
  }

  lemma MapAtNothing()
    ensures For(MapSource(), "nothing") == Answer(Nil)
  {
    ForTopKey(MapSource(), "nothing");
  }

  lemma ExistsAtValue1()
    ensures For(ExistsSource(), "value1") == Answer(Text("test"))
  {
    ForTopKey(ExistsSource(), "value1");
  }

  lemma ExistsAtValue2()
    ensures For(ExistsSource(), "value2") == Answer(Signed(0))
  {
    ForTopKey(ExistsSource(), "value2");
  }

  lemma ExistsAtNil()
    ensures For(ExistsSource(), "nil") == Answer(Nil)
  {
    ForTopKey(ExistsSource(), "nil");
  }

  lemma ExistsAtNothing()
    ensures For(ExistsSource(), "nothing") == Answer(Nil)
  {
    ForTopKey(ExistsSource(), "nothing");
  }

  lemma ValueAtValue1()
    ensures For(ValueSource(), "value1") == Answer(Text("test"))
  {
    ForTopKey(ValueSource(), "value1");
  }

  lemma ValueAtValue2()
    ensures For(ValueSource(), "value2") == Answer(Signed(0))
  {
    ForTopKey(ValueSource(), "value2");
  }

  lemma ValueAtNothing()
    ensures For(ValueSource(), "nothing") == Answer(Nil)
  {
    ForTopKey(ValueSource(), "nothing");
  }

  // Extraction from the values found.

  /** Text is the only kind `String` accepts. */
  lemma StringConversions()
    ensures String(Answer(Text("test")), "default") == ("test", true)
    ensures String(Answer(Signed(100)), "default") == ("default", false)
    ensures String(Answer(Nil), "default") == ("default", false)
  {
  }

  /** A boolean is the only kind `Bool` accepts; `false` is still found. */
  lemma BoolConversions()
    ensures Bool(Answer(Boolean(true)), false) == (true, true)
    ensures Bool(Answer(Boolean(false)), false) == (false, true)
    ensures Bool(Answer(Signed(100)), false) == (false, false)
    ensures Bool(Answer(Nil), false) == (false, false)
  {
  }

  /** `Int` accepts every numeric kind whose value fits a signed 64-bit integer. */
  lemma IntConversions()
    ensures Int(Answer(Signed(100)), 5) == (100, true)
    ensures Int(Answer(Signed(-100)), 5) == (-100, true)
    ensures Int(Answer(Unsigned(100)), 5) == (100, true)
    ensures Int(Answer(Floating(100.0)), 5) == (100, true)
    ensures Int(Answer(Floating(-100.0)), 5) == (-100, true)
    ensures Int(Answer(Unsigned(MaxUint64)), 5) == (5, false)
    ensures Int(Answer(Text("test")), 5) == (5, false)
    ensures Int(Answer(Nil), 5) == (5, false)
  {
    assert (100.0).Floor == 100;
  }

  /** `Uint` accepts every numeric kind whose value fits an unsigned 64-bit integer. */
  lemma UintConversions()
    ensures Uint(Answer(Signed(100)), 5) == (100, true)
    ensures Uint(Answer(Unsigned(100)), 5) == (100, true)
    ensures Uint(Answer(Floating(100.0)), 5) == (100, true)
    ensures Uint(Answer(Signed(-100)), 5) == (5, false)
    ensures Uint(Answer(Text("test")), 5) == (5, false)
    ensures Uint(Answer(Nil), 5) == (5, false)
  {
    assert (100.0).Floor == 100;
  }

  /** `Slice` returns a sequence's elements, and the default for anything else. */
  lemma SliceConversions()
    ensures var r := Slice(Answer(Sequence(seq(5, _ => Nil))), [Nil]); r.1 && |r.0| == 5
    ensures var r := Slice(Answer(Sequence([])), [Nil]); r.1 && |r.0| == 0
    ensures var r := Slice(Answer(Text("test")), [Nil]); !r.1 && |r.0| == 1
    ensures var r := Slice(Answer(Nil), [Nil]); !r.1 && |r.0| == 1
  {
  }

  /** `Map` returns a mapping's entries, and the default for anything else. */
  lemma MapConversions()
    ensures var r := Map(Answer(Mapping(map["value11" := Text("test"), "value12" := Text("test")])), map["value00" := Text("test")]); r.1 && |r.0| == 2
    ensures var r := Map(Answer(Text("test")), map["value00" := Text("test")]); !r.1 && |r.0| == 1
    ensures var r := Map(Answer(Nil), map["value00" := Text("test")]); !r.1 && |r.0| == 1
  {
    assert map["value11" := Text("test"), "value12" := Text("test")].Keys == {"value11", "value12"};
  }

  // The test cases: a lookup, then an extraction.

  /** Text is extracted from text. */
  lemma StringOfText()
    ensures String(For(StringSource(), "string"), "default") == ("test", true)
  {
    StringAtString();
    StringConversions();
  }

  /** A number is the wrong kind for text. */
  lemma StringOfNumber()
    ensures String(For(StringSource(), "number"), "default") == ("default", false)
  {
    StringAtNumber();
    StringConversions();
  }

  /** A miss gives the default. */
  lemma StringOfMiss()
    ensures String(For(StringSource(), "nothing"), "default") == ("default", false)
  {
    StringAtNothing();
    StringConversions();
  }

  /** `true` is extracted. */
  lemma BoolOfTrue()
    ensures Bool(For(BoolSource(), "bool1"), false) == (true, true)
  {
    BoolAtBool1();
    BoolConversions();
  }

  /** `false` is extracted, flagged found. */
  lemma BoolOfFalse()
    ensures Bool(For(BoolSource(), "bool2"), false) == (false, true)
  {
    BoolAtBool2();
    BoolConversions();
  }

  /** A number is the wrong kind for a boolean. */
  lemma BoolOfNumber()
    ensures Bool(For(BoolSource(), "number"), false) == (false, false)
  {
    BoolAtNumber();
    BoolConversions();
  }

  /** A miss gives the default. */
  lemma BoolOfMiss()
    ensures Bool(For(BoolSource(), "nothing"), false) == (false, false)
  {
    BoolAtNothing();
    BoolConversions();
  }

  /** A signed integer converts. */
  lemma IntOfPositive()
    ensures Int(For(IntSource(), "positive"), 5) == (100, true)
  {
    IntAtPositive();
    IntConversions();
  }

  /** A negative signed integer converts. */
  lemma IntOfNegative()
    ensures Int(For(IntSource(), "negative"), 5) == (-100, true)
  {
    IntAtNegative();
    IntConversions();
  }

  /** An unsigned integer in range converts. */
  lemma IntOfUnsigned()
    ensures Int(For(IntSource(), "unsigned"), 5) == (100, true)
  {
    IntAtUnsigned();
    IntConversions();
  }

  /** An integral float converts. */
  lemma IntOfFloat()
    ensures Int(For(IntSource(), "float"), 5) == (100, true)
  {
    IntAtFloat();
    IntConversions();
  }

  /** A negative integral float converts. */
  lemma IntOfNegativeFloat()
    ensures Int(For(IntSource(), "negative_float"), 5) == (-100, true)
  {
    IntAtNegativeFloat();
    IntConversions();
  }

  /** The largest unsigned 64-bit value overflows. */
  lemma IntOfTooBig()
    ensures Int(For(IntSource(), "toobig"), 5) == (5, false)
  {
    IntAtToobig();
    IntConversions();
  }

  /** Text is the wrong kind for an integer. */
  lemma IntOfText()
    ensures Int(For(IntSource(), "string"), 5) == (5, false)
  {
    IntAtString();
    IntConversions();
  }

  /** A miss gives the default. */
  lemma IntOfMiss()
    ensures Int(For(IntSource(), "nothing"), 5) == (5, false)
  {
    IntAtNothing();
    IntConversions();
  }

  /** A non-negative signed integer converts. */
  lemma UintOfPositive()
    ensures Uint(For(UintSource(), "positive"), 5) == (100, true)
  {
    UintAtPositive();
    UintConversions();
  }

  /** An unsigned integer converts. */
  lemma UintOfUnsigned()
    ensures Uint(For(UintSource(), "unsigned"), 5) == (100, true)
  {
    UintAtUnsigned();
    UintConversions();
  }

  /** A non-negative integral float converts. */
  lemma UintOfFloat()
    ensures Uint(For(UintSource(), "float"), 5) == (100, true)
  {
    UintAtFloat();
    UintConversions();
  }

  /** A negative number is rejected. */
  lemma UintOfNegative()
    ensures Uint(For(UintSource(), "negative"), 5) == (5, false)
  {
    UintAtNegative();
    UintConversions();
  }

  /** Text is the wrong kind for an integer. */
  lemma UintOfText()
    ensures Uint(For(UintSource(), "string"), 5) == (5, false)
  {
    UintAtString();
    UintConversions();
  }

  /** A miss gives the default. */
  lemma UintOfMiss()
    ensures Uint(For(UintSource(), "nothing"), 5) == (5, false)
  {
    UintAtNothing();
    UintConversions();
  }

  /** A sequence comes back with its five elements. */
  lemma SliceOfFive()
    ensures var r := Slice(For(SliceSource(), "slice1"), [Nil]); r.1 && |r.0| == 5
  {
    SliceAtSlice1();
    SliceConversions();
  }

  /** An empty sequence comes back empty, flagged found. */
  lemma SliceOfEmpty()
    ensures var r := Slice(For(SliceSource(), "slice2"), [Nil]); r.1 && |r.0| == 0
  {
    SliceAtSlice2();
    SliceConversions();
  }

  /** Text gives the one-element default. */
  lemma SliceOfText()
    ensures var r := Slice(For(SliceSource(), "string"), [Nil]); !r.1 && |r.0| == 1
  {
    SliceAtString();
    SliceConversions();
  }

  /** A miss gives the one-element default. */
  lemma SliceOfMiss()
    ensures var r := Slice(For(SliceSource(), "nothing"), [Nil]); !r.1 && |r.0| == 1
  {
    SliceAtNothing();
    SliceConversions();
  }

  /** A mapping comes back with its two entries. */
  lemma MapOfTwo()
    ensures var r := Map(For(MapSource(), "map"), map["value00" := Text("test")]); r.1 && |r.0| == 2
  {
    MapAtMap();
    MapConversions();
  }

  /** Text gives the one-entry default. */
  lemma MapOfText()
    ensures var r := Map(For(MapSource(), "string"), map["value00" := Text("test")]); !r.1 && |r.0| == 1
  {
    MapAtString();
    MapConversions();
  }

  /** A miss gives the one-entry default. */
  lemma MapOfMiss()
    ensures var r := Map(For(MapSource(), "nothing"), map["value00" := Text("test")]); !r.1 && |r.0| == 1
  {
    MapAtNothing();
    MapConversions();
  }

  /** A present text exists. */
  lemma ExistsOfText()
    ensures Exists(For(ExistsSource(), "value1"))
  {
    ExistsAtValue1();
  }

  /** A present zero exists. */
  lemma ExistsOfZero()
    ensures Exists(For(ExistsSource(), "value2"))
  {
    ExistsAtValue2();
  }

  /** A nil value does not exist. */
  lemma ExistsOfNil()
    ensures !Exists(For(ExistsSource(), "nil"))
  {
    ExistsAtNil();
  }

  /** A missing key does not exist. */
  lemma ExistsOfMiss()
    ensures !Exists(For(ExistsSource(), "nothing"))
  {
    ExistsAtNothing();
  }

  /** `Value()` returns the found text. */
  lemma ValueOfText()
    ensures Value(For(ValueSource(), "value1")) == Text("test")
  {
    ValueAtValue1();
  }

  /** `Value()` returns the found zero. */
  lemma ValueOfZero()
    ensures Value(For(ValueSource(), "value2")) == Signed(0)
  {
    ValueAtValue2();
  }

  /** `Value()` of a miss is nil. */
  lemma ValueOfMiss()
    ensures Value(For(ValueSource(), "nothing")) == Nil
  {
    ValueAtNothing();
  }

  // ---------------------------------------------------------------------------
  // The end-to-end example: decoded JSON, whose numbers are 64-bit floats.

  function ExampleObject(): Tree {
    Mapping(map["a" := Sequence([Mapping(map["b" := Mapping(map["c" := Floating(3.0)])])])])
  }

  lemma ExampleReachesLeaf()
    ensures Resolve(ExampleObject(), [Key("a"), Index(0), Key("b"), Key("c")]) == Some(Floating(3.0))
  {
  }

  lemma ExampleAtLeaf()
    ensures For(ExampleObject(), "a[0].b.c") == Answer(Floating(3.0))
  {
    ExampleReachesLeaf();
    ForA0BC(ExampleObject());
  }

  /** `a[0].b.d` gets through `a[0].b` and misses only at the last key `d`. */
  lemma ExampleMissesLeaf()
    ensures Resolve(ExampleObject(), [Key("a"), Index(0), Key("b")]) == Some(Mapping(map["c" := Floating(3.0)]))
    ensures Child(Mapping(map["c" := Floating(3.0)]), Key("d")) == None
    ensures Resolve(ExampleObject(), [Key("a"), Index(0), Key("b"), Key("d")]) == None
  {
    var prefix := [Key("a"), Index(0), Key("b")];
    assert Resolve(ExampleObject(), prefix) == Some(Mapping(map["c" := Floating(3.0)]));
    LastStepMiss(ExampleObject(), prefix, Key("d"));
    assert prefix + [Key("d")] == [Key("a"), Index(0), Key("b"), Key("d")];
  }

  lemma ExampleAtMissingLeaf()
    ensures For(ExampleObject(), "a[0].b.d") == Answer(Nil)
  {
    ExampleMissesLeaf();
    ForA0BD(ExampleObject());
  }

  /** The float 3 converts to the integer 3; a miss gives the text default. */
  lemma ExampleConversions()
    ensures Int(Answer(Floating(3.0)), 0) == (3, true)
    ensures String(Answer(Nil), "nothing") == ("nothing", false)
  {
    assert (3.0).Floor == 3;
  }

  /** `a[0].b.c` walks mapping, sequence, mapping, mapping to the number 3, which `Int(0)` converts. */
  lemma ExampleFindsNumber()
    ensures Int(For(ExampleObject(), "a[0].b.c"), 0) == (3, true)
  {
    ExampleAtLeaf();
    ExampleConversions();
  }

  /** `a[0].b.d` fails only at its last key: a plain miss, so `String("nothing")` gives the default. */
  lemma ExampleMissesLastKey()
    ensures String(For(ExampleObject(), "a[0].b.d"), "nothing") == ("nothing", false)
  {
    ExampleAtMissingLeaf();
    ExampleConversions();
  }
}
