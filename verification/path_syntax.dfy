/**
  The path-expression grammar: a `.`-separated list of steps, each step an
  optional identifier followed by zero or more bracketed decimal indices, as in
  `a[0].b`. Parsing yields the flat segment list, or `None` for malformed text.
  `Render` is the parser's partner: it prints a segment list back as a path.
 */
module PathSyntax {
  import opened Wrappers
  import opened Values

  /** The character classes the grammar distinguishes. */
  datatype CharClass = IdentChar | DigitChar | NotDot

  predicate InClass(c: char, cls: CharClass) {
    match cls
    case IdentChar => 'a' <= c <= 'z' || 'A' <= c <= 'Z' || '0' <= c <= '9' || c == '_'
    case DigitChar => '0' <= c <= '9'
    case NotDot => c != '.'
  }

  /** Length of the longest prefix of `s` whose characters all lie in `cls`. */
  function SpanLen(s: string, cls: CharClass): (n: nat)
    ensures n <= |s|
    ensures forall i :: 0 <= i < n ==> InClass(s[i], cls)
    ensures n < |s| ==> !InClass(s[n], cls)
  {
    if s == [] || !InClass(s[0], cls) then 0 else 1 + SpanLen(s[1..], cls)
  }

  lemma {:induction false} SpanLenAppendAll(a: string, b: string, cls: CharClass)
    requires forall i :: 0 <= i < |a| ==> InClass(a[i], cls)
    ensures SpanLen(a + b, cls) == |a| + SpanLen(b, cls)
  {
    if a != [] {
      assert (a + b)[1..] == a[1..] + b;
      SpanLenAppendAll(a[1..], b, cls);
    } else {
      assert a + b == b;
    }
  }

  lemma {:induction false} SpanLenAppendStop(a: string, b: string, cls: CharClass)
    requires SpanLen(a, cls) < |a|
    ensures SpanLen(a + b, cls) == SpanLen(a, cls)
  {
    if InClass(a[0], cls) {
      assert (a + b)[1..] == a[1..] + b;
      SpanLenAppendStop(a[1..], b, cls);
    }
  }

  /** Splits `s` at every `.`; there is always at least one piece, and no piece holds a dot (`SplitPiecesDotFree`). */
  function SplitDots(s: string): (parts: seq<string>)
    ensures |parts| >= 1
    decreases |s|
  {
    var n := SpanLen(s, NotDot);
    if n == |s| then [s] else [s[..n]] + SplitDots(s[n + 1..])
  }

  /** Joins pieces with `.` between them: the inverse of `SplitDots`. */
  function JoinDots(parts: seq<string>): (path: string)
    requires |parts| >= 1
  {
    if |parts| == 1 then parts[0] else parts[0] + "." + JoinDots(parts[1..])
  }

  lemma {:induction false} SplitJoin(s: string)
    ensures JoinDots(SplitDots(s)) == s
    decreases |s|
  {
    var n := SpanLen(s, NotDot);
    if n < |s| {
      var p, q := s[..n], s[n + 1..];
      assert s == p + "." + q;
      SpanPrefixDotFree(s);
      SplitAtFirst(s, p, q);
      JoinCons(p, SplitDots(q));
      SplitJoin(q);
    } else {
      assert SplitDots(s) == [s];
    }
  }

  lemma JoinCons(p: string, rest: seq<string>)
    requires |rest| >= 1
    ensures JoinDots([p] + rest) == p + "." + JoinDots(rest)
  {
    assert ([p] + rest)[1..] == rest;
  }

  /** No piece of a split contains a dot. */
  lemma {:induction false} SplitPiecesDotFree(s: string)
    ensures forall k :: 0 <= k < |SplitDots(s)| ==> '.' !in SplitDots(s)[k]
    decreases |s|
  {
    var n := SpanLen(s, NotDot);
    SpanPrefixDotFree(s);
    if n < |s| {
      var rest := SplitDots(s[n + 1..]);
      SplitPiecesDotFree(s[n + 1..]);
      var parts := [s[..n]] + rest;
      assert SplitDots(s) == parts;
      forall k | 0 <= k < |parts| ensures '.' !in parts[k] {
        if k > 0 {
          assert parts[k] == rest[k - 1];
        }
      }
    } else {
      assert s[..n] == s;
      assert SplitDots(s) == [s];
    }
  }

  lemma {:induction false} SplitDotFree(s: string)
    requires '.' !in s
    ensures SplitDots(s) == [s]
  {
  }

  /** Splitting at the first dot, when the first dot ends `p`. */
  lemma {:induction false} SplitAtFirst(s: string, p: string, q: string)
    requires s == p + "." + q
    requires '.' !in p
    ensures SplitDots(s) == [p] + SplitDots(q)
  {
    assert s == p + ("." + q);
    assert forall i :: 0 <= i < |p| ==> InClass(p[i], NotDot) by {
      forall i | 0 <= i < |p| ensures InClass(p[i], NotDot) {
        assert p[i] in p;
      }
    }
    SpanLenAppendAll(p, "." + q, NotDot);
    var n := SpanLen(s, NotDot);
    assert n == |p|;
    assert s[..n] == p;
    assert s[n + 1..] == q;
  }

  /** The prefix before the first dot is dot-free. */
  lemma SpanPrefixDotFree(p: string)
    ensures '.' !in p[..SpanLen(p, NotDot)]
  {
    var n := SpanLen(p, NotDot);
    forall i | 0 <= i < n ensures p[..n][i] != '.' {
      assert InClass(p[i], NotDot);
    }
  }

  lemma {:induction false} SplitAppend(p: string, q: string)
    ensures SplitDots(p + "." + q) == SplitDots(p) + SplitDots(q)
    decreases |p|
  {
    var n := SpanLen(p, NotDot);
    SpanPrefixDotFree(p);
    if n == |p| {
      assert p[..n] == p;
      SplitAtFirst(p + "." + q, p, q);
      SplitDotFree(p);
    } else {
      var head := p[..n];
      var rest := p[n + 1..];
      assert p == head + "." + rest;
      SplitAppend(rest, q);
      SplitAppendStep(p, q, head, rest);
    }
  }

  lemma SplitAppendStep(p: string, q: string, head: string, rest: string)
    requires p == head + "." + rest
    requires '.' !in head
    requires SplitDots(rest + "." + q) == SplitDots(rest) + SplitDots(q)
    ensures SplitDots(p + "." + q) == SplitDots(p) + SplitDots(q)
  {
    var tail := rest + "." + q;
    SeqAssoc(head, rest, q);
    SplitAtFirst(p, head, rest);
    SplitAtFirst(p + "." + q, head, tail);
    AppendAssoc([head], SplitDots(rest), SplitDots(q));
  }

  lemma AppendAssoc<T>(a: seq<T>, b: seq<T>, c: seq<T>)
    ensures a + (b + c) == (a + b) + c
  {
  }

  lemma TakeDropJoin<T>(s: seq<T>, n: nat)
    requires n <= |s|
    ensures s[..n] + s[n..] == s
  {
  }

  lemma SeqAssoc(a: string, b: string, c: string)
    ensures a + "." + b + "." + c == a + "." + (b + "." + c)
  {
  }

  /** The decimal value of a run of digits. */
  function DigitsValue(d: string): (v: nat)
    requires forall i :: 0 <= i < |d| ==> InClass(d[i], DigitChar)
  {
    if d == [] then 0
    else
      assert InClass(d[|d| - 1], DigitChar);
      10 * DigitsValue(d[..|d| - 1]) + (d[|d| - 1] as int - '0' as int)
  }

  /** The shortest decimal spelling of `n`. */
  function NatStr(n: nat): (d: string)
    ensures |d| >= 1
    ensures forall i :: 0 <= i < |d| ==> InClass(d[i], DigitChar)
  {
    var c := ('0' as int + n % 10) as char;
    if n < 10 then [c] else NatStr(n / 10) + [c]
  }

  lemma {:induction false} DigitsOfNatStr(n: nat)
    ensures DigitsValue(NatStr(n)) == n
  {
    if n >= 10 {
      var d := NatStr(n);
      assert d[..|d| - 1] == NatStr(n / 10);
      DigitsOfNatStr(n / 10);
    }
  }

  /** The index segments a run of bracket groups denotes. */
  function IndexSegments(idx: seq<int>): (segs: seq<Segment>)
    ensures |segs| == |idx|
    ensures forall k :: 0 <= k < |idx| ==> segs[k] == Index(idx[k])
  {
    if idx == [] then [] else [Index(idx[0])] + IndexSegments(idx[1..])
  }

  /** Parses `[n][m]...` into its indices; anything else in `rest` is malformed. */
  function ParseIndices(rest: string): (r: Option<seq<int>>)
    ensures r.Some? ==> forall k :: 0 <= k < |r.value| ==> r.value[k] >= 0
    decreases |rest|
  {
    if rest == [] then Some([])
    else if rest[0] != '[' then None
    else
      var n := SpanLen(rest[1..], DigitChar);
      if n == 0 || n + 1 >= |rest| || rest[n + 1] != ']' then None
      else
        match ParseIndices(rest[n + 2..])
        case None => None
        case Some(tail) => Some([DigitsValue(rest[1..n + 1]) as int] + tail)
  }

  /** Parses one dot-free step: an identifier (Key) then its bracketed indices; an empty step is malformed. */
  function ParseStep(t: string): (r: Option<seq<Segment>>)
    ensures r.Some? ==> r.value != []
  {
    var n := SpanLen(t, IdentChar);
    match ParseIndices(t[n..])
    case None => None
    case Some(idx) =>
      if n == 0 && idx == [] then None
      else Some((if n == 0 then [] else [Key(t[..n])]) + IndexSegments(idx))
  }

  /** Joins two parse outcomes; either failure makes the whole a failure. */
  function Concat(a: Option<seq<Segment>>, b: Option<seq<Segment>>): (r: Option<seq<Segment>>)
    ensures r.Some? <==> a.Some? && b.Some?
    ensures r.Some? ==> r.value == a.value + b.value
  {
    match a
    case None => None
    case Some(x) => (match b case None => None case Some(y) => Some(x + y))
  }

  function ParseSteps(steps: seq<string>): (r: Option<seq<Segment>>)
  {
    if steps == [] then Some([]) else Concat(ParseStep(steps[0]), ParseSteps(steps[1..]))
  }

  lemma ConcatAssoc(x: Option<seq<Segment>>, y: Option<seq<Segment>>, z: Option<seq<Segment>>)
    ensures Concat(Concat(x, y), z) == Concat(x, Concat(y, z))
  {
    if x.Some? && y.Some? && z.Some? {
      assert x.value + y.value + z.value == x.value + (y.value + z.value);
    }
  }

  lemma {:induction false} ParseStepsAppend(a: seq<string>, b: seq<string>)
    ensures ParseSteps(a + b) == Concat(ParseSteps(a), ParseSteps(b))
  {
    if a == [] {
      assert a + b == b;
      if ParseSteps(b).Some? {
        assert [] + ParseSteps(b).value == ParseSteps(b).value;
      }
    } else {
      assert (a + b)[1..] == a[1..] + b;
      ParseStepsAppend(a[1..], b);
      ConcatAssoc(ParseStep(a[0]), ParseSteps(a[1..]), ParseSteps(b));
    }
  }

  /** A parsed step holds only segments the grammar can spell: non-empty identifier keys, natural indices. */
  lemma ParseStepSpellable(t: string)
    ensures ParseStep(t).Some? ==> Renderable(ParseStep(t).value)
  {
    var n := SpanLen(t, IdentChar);
    if ParseIndices(t[n..]).Some? && n > 0 {
      assert IsSpellable(Key(t[..n]));
    }
  }

  lemma {:induction false} ParseStepsSpellable(steps: seq<string>)
    ensures ParseSteps(steps).Some? ==> Renderable(ParseSteps(steps).value)
  {
    if steps != [] {
      ParseStepSpellable(steps[0]);
      ParseStepsSpellable(steps[1..]);
    }
  }

  /** A non-empty list of steps never parses to the empty segment list: no step is ever empty. */
  lemma ParseStepsNonEmpty(steps: seq<string>)
    requires steps != []
    ensures ParseSteps(steps) != Some([])
  {
  }

  /** Parses a whole path. The empty path is the empty segment list (the root itself). */
  function Parse(path: string): (r: Option<seq<Segment>>)
    ensures r == Some([]) <==> path == []
  {
    if path == [] then Some([])
    else
      ParseStepsNonEmpty(SplitDots(path));
      ParseSteps(SplitDots(path))
  }

  /** Every parsed path holds only segments the grammar can spell. */
  lemma ParseSpellable(path: string)
    ensures Parse(path).Some? ==> Renderable(Parse(path).value)
  {
    if path != [] {
      ParseStepsSpellable(SplitDots(path));
    }
  }

  /** Joining two non-empty paths with a dot concatenates their segment lists. */
  lemma ParseDot(p: string, q: string)
    requires p != [] && q != []
    ensures Parse(p + "." + q) == Concat(Parse(p), Parse(q))
  {
    SplitAppend(p, q);
    ParseStepsAppend(SplitDots(p), SplitDots(q));
  }

  // ---------------------------------------------------------------------------
  // Printing segments back as a path.

  /** True of segment lists the grammar can spell: keys are non-empty identifiers, indices are non-negative. */
  predicate Renderable(segs: seq<Segment>) {
    forall k :: 0 <= k < |segs| ==> IsSpellable(segs[k])
  }

  predicate IsSpellable(s: Segment) {
    match s
    case Key(name) => name != [] && forall i :: 0 <= i < |name| ==> InClass(name[i], IdentChar)
    case Index(pos) => pos >= 0
  }

  function RenderSegment(s: Segment, first: bool): (text: string)
    requires IsSpellable(s)
  {
    match s
    case Key(name) => (if first then "" else ".") + name
    case Index(pos) => "[" + NatStr(pos) + "]"
  }

  /** Spells `segs`; `first` says whether a key needs no leading dot. */
  function RenderFrom(segs: seq<Segment>, first: bool): (path: string)
    requires Renderable(segs)
  {
    if segs == [] then "" else RenderSegment(segs[0], first) + RenderFrom(segs[1..], false)
  }

  function Render(segs: seq<Segment>): (path: string)
    requires Renderable(segs)
  {
    RenderFrom(segs, true)
  }

  lemma {:induction false} RenderFromAppend(a: seq<Segment>, b: seq<Segment>, first: bool)
    requires Renderable(a) && Renderable(b)
    ensures Renderable(a + b)
    ensures RenderFrom(a + b, first) == RenderFrom(a, first) + RenderFrom(b, first && a == [])
  {
    if a == [] {
      assert a + b == b;
    } else {
      assert (a + b)[0] == a[0];
      assert (a + b)[1..] == a[1..] + b;
      RenderFromAppend(a[1..], b, false);
    }
  }

  /** The number of index segments at the front of `segs`. */
  function IndexRun(segs: seq<Segment>): (n: nat)
    ensures n <= |segs|
    ensures forall k :: 0 <= k < n ==> segs[k].Index?
    ensures n < |segs| ==> segs[n].Key?
  {
    if segs == [] || segs[0].Key? then 0 else 1 + IndexRun(segs[1..])
  }

  /** The positions of a run of index segments. */
  function Positions(segs: seq<Segment>): (idx: seq<int>)
    requires forall k :: 0 <= k < |segs| ==> segs[k].Index?
    ensures IndexSegments(idx) == segs
  {
    if segs == [] then [] else [segs[0].pos] + Positions(segs[1..])
  }

  /** One bracket group in front of `more` contributes its index in front of `more`'s. */
  lemma ParseIndexGroup(pos: nat, more: string)
    ensures ParseIndices("[" + NatStr(pos) + "]" + more)
         == (match ParseIndices(more) case None => None case Some(t) => Some([pos] + t))
  {
    var d := NatStr(pos);
    var rest := "[" + d + "]" + more;
    GroupSlices(d, more);
    assert SpanLen(rest[1..], DigitChar) == |d| by {
      SpanLenAppendAll(d, "]" + more, DigitChar);
      assert SpanLen("]" + more, DigitChar) == 0;
    }
    assert DigitsValue(rest[1..|d| + 1]) == pos by {
      DigitsOfNatStr(pos);
    }
  }

  /** The pieces of `[d]more` that the group parser looks at. */
  lemma GroupSlices(d: string, more: string)
    ensures var rest := "[" + d + "]" + more;
      && rest[0] == '[' && rest[1..] == d + ("]" + more) && rest[|d| + 1] == ']'
      && rest[1..|d| + 1] == d && rest[|d| + 2..] == more
  {
  }

  lemma DigitsDotFree(d: string)
    requires forall i :: 0 <= i < |d| ==> InClass(d[i], DigitChar)
    ensures '.' !in d
  {
  }

  /** Bracket groups parse back to their indices. */
  lemma {:induction false} ParseRenderedIndices(segs: seq<Segment>)
    requires Renderable(segs)
    requires forall k :: 0 <= k < |segs| ==> segs[k].Index?
    ensures '.' !in RenderFrom(segs, false)
    ensures ParseIndices(RenderFrom(segs, false)) == Some(Positions(segs))
  {
    if segs != [] {
      var pos := segs[0].pos;
      var more := RenderFrom(segs[1..], false);
      ParseRenderedIndices(segs[1..]);
      assert RenderFrom(segs, false) == "[" + NatStr(pos) + "]" + more;
      ParseIndexGroup(pos, more);
      DigitsDotFree(NatStr(pos));
    }
  }

  /** Rendered bracket groups begin with `[`, which no identifier contains. */
  lemma RenderedIndicesNoIdent(segs: seq<Segment>)
    requires Renderable(segs)
    requires forall k :: 0 <= k < |segs| ==> segs[k].Index?
    ensures SpanLen(RenderFrom(segs, false), IdentChar) == 0
  {
    if segs != [] {
      assert RenderFrom(segs, false)[0] == '[';
    }
  }

  /** The first step of a segment list: an optional key with the indices right after it. */
  function FirstStepLen(segs: seq<Segment>): (n: nat)
    requires segs != []
    ensures 1 <= n <= |segs|
    ensures n < |segs| ==> segs[n].Key?
  {
    if segs[0].Key? then 1 + IndexRun(segs[1..]) else IndexRun(segs)
  }

  /** A dot-free non-empty path is a single step. */
  lemma ParseSingleStep(t: string)
    requires t != [] && '.' !in t
    ensures Parse(t) == ParseStep(t)
  {
    SplitDotFree(t);
    assert ParseSteps([t]) == Concat(ParseStep(t), ParseSteps([]));
    if ParseStep(t).Some? {
      assert ParseStep(t).value + [] == ParseStep(t).value;
    }
  }

  lemma IdentDotFree(name: string)
    requires forall i :: 0 <= i < |name| ==> InClass(name[i], IdentChar)
    ensures '.' !in name
  {
  }

  /** An identifier followed by well-formed bracket groups is a key step. */
  lemma ParseKeyStep(name: string, r: string, idx: seq<int>)
    requires name != [] && forall i :: 0 <= i < |name| ==> InClass(name[i], IdentChar)
    requires SpanLen(r, IdentChar) == 0
    requires ParseIndices(r) == Some(idx)
    ensures ParseStep(name + r) == Some([Key(name)] + IndexSegments(idx))
  {
    var t := name + r;
    SpanLenAppendAll(name, r, IdentChar);
    assert t[|name|..] == r;
    assert t[..|name|] == name;
  }

  /** A key followed by its bracket groups parses back to the key and the indices. */
  lemma ParseRenderedKeyStep(segs: seq<Segment>)
    requires Renderable(segs) && segs != [] && segs[0].Key?
    requires forall k :: 0 <= k < |segs[1..]| ==> segs[1..][k].Index?
    ensures '.' !in RenderFrom(segs, true)
    ensures Parse(RenderFrom(segs, true)) == Some(segs)
  {
    var name := segs[0].name;
    var idx := segs[1..];
    assert IsSpellable(segs[0]);
    var r := RenderFrom(idx, false);
    assert RenderFrom(segs, true) == name + r;
    ParseRenderedIndices(idx);
    RenderedIndicesNoIdent(idx);
    IdentDotFree(name);
    ParseKeyStep(name, r, Positions(idx));
    ParseSingleStep(name + r);
    assert segs == [Key(name)] + idx;
  }

  /** A run of bracket groups with no key parses back to the indices. */
  lemma ParseRenderedIndexStep(segs: seq<Segment>)
    requires Renderable(segs) && segs != []
    requires forall k :: 0 <= k < |segs| ==> segs[k].Index?
    ensures '.' !in RenderFrom(segs, true)
    ensures Parse(RenderFrom(segs, true)) == Some(segs)
  {
    var t := RenderFrom(segs, true);
    assert t == RenderFrom(segs, false);
    ParseRenderedIndices(segs);
    RenderedIndicesNoIdent(segs);
    assert t != [];
    assert t[0..] == t;
    ParseSingleStep(t);
    assert [] + segs == segs;
  }

  /** A single rendered step is dot-free and parses back to itself. */
  lemma ParseRenderedStep(segs: seq<Segment>)
    requires Renderable(segs) && segs != []
    requires FirstStepLen(segs) == |segs|
    ensures '.' !in RenderFrom(segs, true)
    ensures Parse(RenderFrom(segs, true)) == Some(segs)
  {
    if segs[0].Key? {
      ParseRenderedKeyStep(segs);
    } else {
      ParseRenderedIndexStep(segs);
    }
  }

  /** A later step is printed with a dot before its key. */
  lemma RenderLaterStep(tail: seq<Segment>)
    requires Renderable(tail) && tail != [] && tail[0].Key?
    ensures RenderFrom(tail, false) == "." + Render(tail)
    ensures Render(tail) != []
  {
    var k, rest := tail[0].name, RenderFrom(tail[1..], false);
    assert IsSpellable(tail[0]);
    assert RenderFrom(tail, false) == ("." + k) + rest;
    assert Render(tail) == k + rest;
    AppendAssoc(".", k, rest);
  }

  /** The first step of a segment list is one step on its own. */
  lemma FirstStepIsStep(segs: seq<Segment>)
    requires segs != []
    ensures FirstStepLen(segs[..FirstStepLen(segs)]) == FirstStepLen(segs)
  {
    var n := FirstStepLen(segs);
    var head := segs[..n];
    if segs[0].Key? {
      assert head[1..] == segs[1..][..n - 1];
      IndexRunAll(head[1..]);
    } else {
      IndexRunAll(head);
    }
  }

  lemma {:induction false} IndexRunAll(segs: seq<Segment>)
    requires forall k :: 0 <= k < |segs| ==> segs[k].Index?
    ensures IndexRun(segs) == |segs|
  {
    if segs != [] {
      IndexRunAll(segs[1..]);
    }
  }

  /** A bare identifier is a one-key path. */
  lemma ParseKey(name: string)
    requires IsSpellable(Key(name))
    ensures Parse(name) == Some([Key(name)])
  {
    ParseKeyStep(name, "", []);
    assert name + "" == name;
    assert [Key(name)] + IndexSegments([]) == [Key(name)];
    IdentDotFree(name);
    ParseSingleStep(name);
  }

  lemma RenderKeyIndex(name: string, pos: nat)
    requires IsSpellable(Key(name))
    ensures RenderFrom([Key(name), Index(pos)], true) == name + "[" + NatStr(pos) + "]"
  {
    var segs := [Key(name), Index(pos)];
    var digits := NatStr(pos);
    assert segs[1..] == [Index(pos)] && segs[1..][1..] == [];
    assert RenderFrom(segs[1..], false) == "[" + digits + "]" + "";
    assert RenderSegment(segs[0], true) == "" + name;
    AppendAssoc(name, "[" + digits, "]");
    AppendAssoc(name, "[", digits);
  }

  /** An identifier with one bracket group is a key followed by an index. */
  lemma ParseKeyIndex(name: string, pos: nat)
    requires IsSpellable(Key(name))
    ensures Parse(name + "[" + NatStr(pos) + "]") == Some([Key(name), Index(pos)])
  {
    var segs := [Key(name), Index(pos)];
    assert IsSpellable(segs[1]);
    RenderKeyIndex(name, pos);
    ParseRenderedKeyStep(segs);
  }

  /** Round trip: a spellable segment list printed as a path parses back to the same list. */
  lemma {:induction false} ParseRender(segs: seq<Segment>)
    requires Renderable(segs)
    ensures Parse(Render(segs)) == Some(segs)
    decreases |segs|
  {
    if segs != [] {
      var n := FirstStepLen(segs);
      var head, tail := segs[..n], segs[n..];
      assert segs == head + tail;
      FirstStepIsStep(segs);
      RenderFromAppend(head, tail, true);
      ParseRenderedStep(head);
      if tail != [] {
        RenderLaterStep(tail);
        ParseRender(tail);
        assert Render(segs) == Render(head) + "." + Render(tail);
        ParseDot(Render(head), Render(tail));
      } else {
        assert head == segs;
      }
    }
  }

  // ---------------------------------------------------------------------------
  // Characters outside the grammar.

  /** The characters a path may contain at all. */
  predicate PathChar(c: char) {
    InClass(c, IdentChar) || c == '[' || c == ']' || c == '.'
  }

  predicate AllPathChars(s: string) {
    forall i :: 0 <= i < |s| ==> PathChar(s[i])
  }

  lemma AllPathCharsAppend(a: string, b: string)
    requires AllPathChars(a) && AllPathChars(b)
    ensures AllPathChars(a + b)
  {
    forall i | 0 <= i < |a + b| ensures PathChar((a + b)[i]) {
      if i >= |a| {
        assert (a + b)[i] == b[i - |a|];
      }
    }
  }

  lemma {:induction false} ParseIndicesChars(r: string)
    requires ParseIndices(r).Some?
    ensures AllPathChars(r)
    decreases |r|
  {
    if r != [] {
      var n := SpanLen(r[1..], DigitChar);
      assert r[0] == '[' && 0 < n && n + 1 < |r| && r[n + 1] == ']';
      var group, more := r[..n + 2], r[n + 2..];
      assert ParseIndices(more).Some?;
      ParseIndicesChars(more);
      forall i | 0 <= i < n + 2 ensures PathChar(group[i]) {
        if i == 0 {
          assert group[i] == '[';
        } else if i == n + 1 {
          assert group[i] == ']';
        } else {
          assert group[i] == r[1..][i - 1];
          assert InClass(r[1..][i - 1], DigitChar);
        }
      }
      assert r == group + more;
      AllPathCharsAppend(group, more);
    }
  }

  lemma ParseStepChars(t: string)
    requires ParseStep(t).Some?
    ensures AllPathChars(t)
  {
    var n := SpanLen(t, IdentChar);
    ParseIndicesChars(t[n..]);
    TakeDropJoin(t, n);
    AllPathCharsAppend(t[..n], t[n..]);
  }

  lemma {:induction false} ParseStepsJoinChars(steps: seq<string>)
    requires |steps| >= 1
    requires ParseSteps(steps).Some?
    ensures AllPathChars(JoinDots(steps))
  {
    ParseStepChars(steps[0]);
    if |steps| > 1 {
      ParseStepsJoinChars(steps[1..]);
      AllPathCharsAppend(steps[0], ".");
      AllPathCharsAppend(steps[0] + ".", JoinDots(steps[1..]));
    }
  }

  /** A path holding any character outside identifiers, brackets and dots (a `-`, say) is malformed. */
  lemma ParseRejectsStrayChar(path: string, i: nat)
    requires i < |path| && !PathChar(path[i])
    ensures Parse(path) == None
  {
    if Parse(path).Some? {
      ParseStepsJoinChars(SplitDots(path));
      SplitJoin(path);
      assert false;
    }
  }

  // ---------------------------------------------------------------------------
  // Empty steps and broken bracket groups.

  /** Any empty step makes the whole list of steps malformed. */
  lemma {:induction false} ParseStepsEmptyPiece(steps: seq<string>, k: nat)
    requires k < |steps| && steps[k] == []
    ensures ParseSteps(steps) == None
    decreases k
  {
    if k > 0 {
      ParseStepsEmptyPiece(steps[1..], k - 1);
    }
  }

  /** A leading dot leaves the first step empty. */
  lemma ParseRejectsLeadingDot(q: string)
    ensures Parse("." + q) == None
  {
    assert "." + q == [] + "." + q;
    SplitAtFirst("." + q, [], q);
    ParseStepsEmptyPiece(SplitDots("." + q), 0);
  }

  /** A doubled dot leaves an empty step between its two dots. */
  lemma ParseRejectsDoubledDot(p: string, q: string)
    ensures Parse(p + ".." + q) == None
  {
    assert p + ".." + q == p + "." + ("." + q);
    SplitAppend(p, "." + q);
    ParseStepsAppend(SplitDots(p), SplitDots("." + q));
    ParseRejectsLeadingDot(q);
  }

  /** A trailing dot leaves the last step empty. */
  lemma ParseRejectsTrailingDot(p: string)
    ensures Parse(p + ".") == None
  {
    assert p + "." == p + "." + [];
    SplitAppend(p, []);
    assert SplitDots([]) == [[]];
    ParseStepsEmptyPiece([[]], 0);
    ParseStepsAppend(SplitDots(p), SplitDots([]));
  }

  /** The bracket group opened at position `i` is well-formed: one or more digits, then `]`. */
  predicate GroupOpensAt(s: string, i: nat)
    requires i < |s|
  {
    var n := SpanLen(s[i + 1..], DigitChar);
    n > 0 && i + 1 + n < |s| && s[i + 1 + n] == ']'
  }

  /** Every `[` opens a well-formed group. */
  predicate OpenersClosed(s: string) {
    forall i :: 0 <= i < |s| && s[i] == '[' ==> GroupOpensAt(s, i)
  }

  /** Every `]` closes a run of digits. */
  predicate ClosersAfterDigit(s: string) {
    forall i :: 0 <= i < |s| && s[i] == ']' ==> 0 < i && InClass(s[i - 1], DigitChar)
  }

  /** Every `]` is followed by `[`, `.` or the end. */
  predicate ClosersFollowed(s: string) {
    forall i :: 0 <= i < |s| - 1 && s[i] == ']' ==> s[i + 1] == '[' || s[i + 1] == '.'
  }

  /** The bracket shape every parsable path has. */
  predicate BracketsWellFormed(s: string) {
    OpenersClosed(s) && ClosersAfterDigit(s) && ClosersFollowed(s)
  }

  lemma OpenersAppend(a: string, b: string)
    requires OpenersClosed(a) && OpenersClosed(b)
    ensures OpenersClosed(a + b)
  {
    var s := a + b;
    forall i | 0 <= i < |s| && s[i] == '[' ensures GroupOpensAt(s, i) {
      if i < |a| {
        var n := SpanLen(a[i + 1..], DigitChar);
        assert a[i] == '[' && GroupOpensAt(a, i);
        assert s[i + 1..] == a[i + 1..] + b;
        SpanLenAppendStop(a[i + 1..], b, DigitChar);
        assert s[i + 1 + n] == a[i + 1 + n];
      } else {
        var j := i - |a|;
        var n := SpanLen(b[j + 1..], DigitChar);
        assert b[j] == '[' && GroupOpensAt(b, j);
        assert s[i + 1..] == b[j + 1..];
        assert s[i + 1 + n] == b[j + 1 + n];
      }
    }
  }

  lemma ClosersAfterDigitAppend(a: string, b: string)
    requires ClosersAfterDigit(a) && ClosersAfterDigit(b)
    ensures ClosersAfterDigit(a + b)
  {
    var s := a + b;
    forall i | 0 <= i < |s| && s[i] == ']' ensures 0 < i && InClass(s[i - 1], DigitChar) {
      if i >= |a| {
        assert b[i - |a|] == ']';
      } else {
        assert a[i] == ']';
      }
    }
  }

  lemma ClosersFollowedAppend(a: string, b: string)
    requires ClosersFollowed(a) && ClosersFollowed(b)
    requires a != [] && b != [] && a[|a| - 1] == ']' ==> b[0] == '[' || b[0] == '.'
    ensures ClosersFollowed(a + b)
  {
    var s := a + b;
    forall i | 0 <= i < |s| - 1 && s[i] == ']' ensures s[i + 1] == '[' || s[i + 1] == '.' {
      if i >= |a| {
        assert b[i - |a|] == ']';
      } else if i < |a| - 1 {
        assert a[i] == ']';
      }
    }
  }

  lemma BracketsAppend(a: string, b: string)
    requires BracketsWellFormed(a) && BracketsWellFormed(b)
    requires a != [] && b != [] && a[|a| - 1] == ']' ==> b[0] == '[' || b[0] == '.'
    ensures BracketsWellFormed(a + b)
  {
    OpenersAppend(a, b);
    ClosersAfterDigitAppend(a, b);
    ClosersFollowedAppend(a, b);
  }

  /** No identifier character is a bracket. */
  lemma IdentBrackets(name: string)
    requires forall i :: 0 <= i < |name| ==> InClass(name[i], IdentChar)
    ensures BracketsWellFormed(name)
    ensures name != [] ==> name[|name| - 1] != ']'
  {
  }

  /** The facts `ParseIndices` checks about one leading bracket group `[digits]` of `r`. */
  predicate LeadingGroup(r: string, n: nat) {
    0 < n && n + 1 < |r| && r[0] == '[' && r[n + 1] == ']'
    && SpanLen(r[1..], DigitChar) == n
    && forall k :: 1 <= k <= n ==> InClass(r[k], DigitChar)
  }

  lemma GroupThenOpeners(r: string, n: nat)
    requires LeadingGroup(r, n) && OpenersClosed(r[n + 2..])
    ensures OpenersClosed(r)
  {
    var more := r[n + 2..];
    forall i | 0 <= i < |r| && r[i] == '[' ensures GroupOpensAt(r, i) {
      if i > n + 1 {
        var j := i - (n + 2);
        var m := SpanLen(more[j + 1..], DigitChar);
        assert more[j] == '[' && GroupOpensAt(more, j);
        assert r[i + 1..] == more[j + 1..];
        assert r[i + 1 + m] == more[j + 1 + m];
      }
    }
  }

  lemma GroupThenClosersAfterDigit(r: string, n: nat)
    requires LeadingGroup(r, n) && ClosersAfterDigit(r[n + 2..])
    ensures ClosersAfterDigit(r)
  {
    var more := r[n + 2..];
    forall i | 0 <= i < |r| && r[i] == ']' ensures 0 < i && InClass(r[i - 1], DigitChar) {
      if i > n + 1 {
        assert more[i - (n + 2)] == ']';
      }
    }
  }

  lemma GroupThenClosersFollowed(r: string, n: nat)
    requires LeadingGroup(r, n) && ClosersFollowed(r[n + 2..])
    requires n + 2 < |r| ==> r[n + 2] == '['
    ensures ClosersFollowed(r)
  {
    var more := r[n + 2..];
    forall i | 0 <= i < |r| - 1 && r[i] == ']' ensures r[i + 1] == '[' || r[i + 1] == '.' {
      if i > n + 1 {
        assert more[i - (n + 2)] == ']';
      }
    }
  }

  lemma {:induction false} ParseIndicesBrackets(r: string)
    requires ParseIndices(r).Some?
    ensures BracketsWellFormed(r)
    ensures r != [] ==> r[0] == '['
    decreases |r|
  {
    if r != [] {
      var n := SpanLen(r[1..], DigitChar);
      assert r[0] == '[' && 0 < n && n + 1 < |r| && r[n + 1] == ']';
      var more := r[n + 2..];
      assert ParseIndices(more).Some?;
      ParseIndicesBrackets(more);
      forall k | 1 <= k <= n ensures InClass(r[k], DigitChar) {
        assert r[k] == r[1..][k - 1];
      }
      assert LeadingGroup(r, n);
      GroupThenOpeners(r, n);
      GroupThenClosersAfterDigit(r, n);
      GroupThenClosersFollowed(r, n);
    }
  }

  /** An identifier followed by well-formed bracket groups has the bracket shape. */
  lemma IdentThenGroups(name: string, rest: string)
    requires forall i :: 0 <= i < |name| ==> InClass(name[i], IdentChar)
    requires ParseIndices(rest).Some?
    ensures BracketsWellFormed(name + rest)
  {
    ParseIndicesBrackets(rest);
    IdentBrackets(name);
    BracketsAppend(name, rest);
  }

  lemma StepBrackets(t: string)
    requires ParseIndices(t[SpanLen(t, IdentChar)..]).Some?
    ensures BracketsWellFormed(t)
  {
    var n := SpanLen(t, IdentChar);
    TakeDropJoin(t, n);
    IdentThenGroups(t[..n], t[n..]);
  }

  lemma {:induction false} ParseStepsJoinBrackets(steps: seq<string>)
    requires |steps| >= 1
    requires ParseSteps(steps).Some?
    ensures BracketsWellFormed(JoinDots(steps))
  {
    assert ParseStep(steps[0]).Some?;
    StepBrackets(steps[0]);
    if |steps| > 1 {
      ParseStepsJoinBrackets(steps[1..]);
      BracketsAppend(steps[0], ".");
      BracketsAppend(steps[0] + ".", JoinDots(steps[1..]));
    }
  }

  /** Every path that parses has well-formed brackets. */
  lemma ParseBrackets(path: string)
    requires Parse(path).Some?
    ensures BracketsWellFormed(path)
  {
    if path != [] {
      ParseStepsJoinBrackets(SplitDots(path));
      SplitJoin(path);
    }
  }

  lemma BadGroupBreaksBrackets(p: string, q: string)
    requires var n := SpanLen(q, DigitChar); n == 0 || n == |q| || q[n] != ']'
    ensures !BracketsWellFormed(p + "[" + q)
  {
    var path := p + "[" + q;
    assert path[|p|] == '[';
    assert path[|p| + 1..] == q;
    assert !GroupOpensAt(path, |p|);
  }

  lemma StrayCloseBreaksBrackets(p: string, q: string)
    requires p == [] || !InClass(p[|p| - 1], DigitChar)
    ensures !BracketsWellFormed(p + "]" + q)
  {
    var path := p + "]" + q;
    assert path[|p|] == ']';
    if p != [] {
      assert path[|p| - 1] == p[|p| - 1];
    }
  }

  lemma TextAfterGroupBreaksBrackets(p: string, q: string)
    requires q != [] && q[0] != '[' && q[0] != '.'
    ensures !BracketsWellFormed(p + "]" + q)
  {
    var path := p + "]" + q;
    assert path[|p|] == ']' && path[|p| + 1] == q[0];
  }

  /** A `[` not followed by one or more digits and then `]` makes the path malformed (`a[b]`, `a[]`, `a[0`). */
  lemma ParseRejectsBadGroup(p: string, q: string)
    requires var n := SpanLen(q, DigitChar); n == 0 || n == |q| || q[n] != ']'
    ensures Parse(p + "[" + q) == None
  {
    BadGroupBreaksBrackets(p, q);
    if Parse(p + "[" + q).Some? {
      ParseBrackets(p + "[" + q);
      assert false;
    }
  }

  /** A `]` that does not close a run of digits makes the path malformed (`a]`, `]`). */
  lemma ParseRejectsStrayClose(p: string, q: string)
    requires p == [] || !InClass(p[|p| - 1], DigitChar)
    ensures Parse(p + "]" + q) == None
  {
    StrayCloseBreaksBrackets(p, q);
    if Parse(p + "]" + q).Some? {
      ParseBrackets(p + "]" + q);
      assert false;
    }
  }

  /** Text right after a closing `]` other than `[` or `.` makes the path malformed (`a[0]b`). */
  lemma ParseRejectsTextAfterGroup(p: string, q: string)
    requires q != [] && q[0] != '[' && q[0] != '.'
    ensures Parse(p + "]" + q) == None
  {
    TextAfterGroupBreaksBrackets(p, q);
    if Parse(p + "]" + q).Some? {
      ParseBrackets(p + "]" + q);
      assert false;
    }
  }
}
