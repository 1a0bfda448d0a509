/**
  The answer a lookup produces, and the entry points that build one. An answer
  wraps a single tree value; a nil value and a miss are the same answer, so
  "found" is simply "the value is not nil". Chained navigation starts a new
  lookup from the answer's value, so a missing answer stays missing.
 */
module Answers {
  import opened Wrappers
  import opened Values
  import opened PathSyntax
  import opened Traversal

  datatype Answer = Answer(value: Tree)

  /** The found flag: false for a miss and for a found nil alike, so exactly one answer is absent. */
  function Exists(a: Answer): (e: bool)
    ensures !e <==> a == Answer(Nil)
  {
    !a.value.Nil?
  }

  /** The wrapped value; nil when nothing was found. */
  function Value(a: Answer): (v: Tree)
    ensures !Exists(a) ==> v == Nil
    ensures a == Answer(v)
  {
    a.value
  }

  /** Turns a traversal outcome into an answer, folding a found nil into a miss. */
  function Wrap(r: Option<Tree>): (a: Answer)
    ensures Exists(a) <==> r.Some? && !r.value.Nil?
    ensures Exists(a) ==> Value(a) == r.value
    ensures !Exists(a) ==> Value(a) == Nil
  {
    match r
    case None => Answer(Nil)
    case Some(t) => Answer(t)
  }

  /** The segments one explicit argument stands for: text is a key taken verbatim
      (the empty text stands for no step), a signed integer an index, anything else is unusable. */
  function ArgSegments(arg: Tree): (r: Option<seq<Segment>>)
  {
    match arg
    case Text(k) => if k == [] then Some([]) else Some([Key(k)])
    case Signed(i) => Some([Index(i)])
    case _ => None
  }

  /** The segments a list of explicit arguments stands for; none of them is ever parsed as a path. */
  function ArgsToSegments(args: seq<Tree>): (r: Option<seq<Segment>>)
    ensures r.Some? <==> forall k :: 0 <= k < |args| ==> args[k].Text? || args[k].Signed?
    ensures r.Some? && (forall k :: 0 <= k < |args| ==> args[k] != Text([])) ==>
              |r.value| == |args|
              && forall k :: 0 <= k < |args| ==>
                   r.value[k] == (if args[k].Text? then Key(args[k].s) else Index(args[k].i))
  {
    if args == [] then Some([]) else Concat(ArgSegments(args[0]), ArgsToSegments(args[1..]))
  }

  lemma {:induction false} ArgsAppend(a: seq<Tree>, b: seq<Tree>)
    ensures ArgsToSegments(a + b) == Concat(ArgsToSegments(a), ArgsToSegments(b))
  {
    if a == [] {
      assert a + b == b;
      if ArgsToSegments(b).Some? {
        assert [] + ArgsToSegments(b).value == ArgsToSegments(b).value;
      }
    } else {
      assert (a + b)[0] == a[0];
      assert (a + b)[1..] == a[1..] + b;
      ArgsAppend(a[1..], b);
      ConcatAssoc(ArgSegments(a[0]), ArgsToSegments(a[1..]), ArgsToSegments(b));
    }
  }

  /** Looks `path` up in `root`; a malformed path is a miss. */
  function For(root: Tree, path: string): (a: Answer)
    ensures Parse(path) == None ==> !Exists(a)
    ensures Exists(a) ==> Parse(path).Some? && Resolve(root, Parse(path).value) == Some(Value(a))
  {
    match Parse(path)
    case None => Answer(Nil)
    case Some(segs) => Wrap(Resolve(root, segs))
  }

  /** Looks up the explicit key/index arguments in `root`. */
  function ForArgs(root: Tree, args: seq<Tree>): (a: Answer)
    ensures ArgsToSegments(args) == None ==> !Exists(a)
    ensures Exists(a) ==> ArgsToSegments(args).Some? && Resolve(root, ArgsToSegments(args).value) == Some(Value(a))
  {
    match ArgsToSegments(args)
    case None => Answer(Nil)
    case Some(segs) => Wrap(Resolve(root, segs))
  }

  /** Navigates further from an answer by a path relative to its value. */
  function Path(a: Answer, path: string): (r: Answer)
    ensures path == [] ==> r == a
    ensures !Exists(a) ==> !Exists(r)
    ensures Exists(r) ==> Parse(path).Some? && Resolve(Value(a), Parse(path).value) == Some(Value(r))
  {
    For(a.value, path)
  }

  /** Navigates further from an answer by explicit arguments. */
  function PathArgs(a: Answer, args: seq<Tree>): (r: Answer)
    ensures args == [] ==> r == a
    ensures !Exists(a) ==> !Exists(r)
    ensures Exists(r) ==> ArgsToSegments(args).Some? && Resolve(Value(a), ArgsToSegments(args).value) == Some(Value(r))
  {
    ForArgs(a.value, args)
  }

  // ---------------------------------------------------------------------------
  // Properties of lookups and chains.

  /** The empty path, and the single empty argument, return the current value unchanged. */
  lemma EmptyPathIsIdentity(root: Tree, a: Answer)
    ensures For(root, "") == Answer(root)
    ensures ForArgs(root, [Text("")]) == Answer(root)
    ensures Path(a, "") == a
    ensures PathArgs(a, [Text("")]) == a
  {
    assert [Text("")][1..] == [];
  }

  /** A found value is reported as found and returned as is; a miss and a found nil are both absent with a nil value. */
  lemma FoundIffResolved(root: Tree, path: string, segs: seq<Segment>)
    requires Parse(path) == Some(segs)
    ensures Exists(For(root, path)) <==> exists v :: Resolve(root, segs) == Some(v) && v != Nil
    ensures Resolve(root, segs).Some? ==> Value(For(root, path)) == Resolve(root, segs).value
    ensures Resolve(root, segs).None? ==> Value(For(root, path)) == Nil
  {
    if Resolve(root, segs).Some? {
      var v := Resolve(root, segs).value;
      assert Resolve(root, segs) == Some(v);
    }
  }

  /** An absent answer stays absent through any further navigation. */
  lemma AbsencePropagates(a: Answer, path: string, args: seq<Tree>)
    requires !Exists(a)
    ensures !Exists(Path(a, path))
    ensures !Exists(PathArgs(a, args))
  {
    match Parse(path) {
      case None =>
      case Some(segs) =>
        if segs != [] {
          ScalarHasNoPath(Nil, segs);
        }
    }
    match ArgsToSegments(args) {
      case None =>
      case Some(segs) =>
        if segs != [] {
          ScalarHasNoPath(Nil, segs);
        }
    }
  }

  /** Continuing from a wrapped outcome is continuing the outcome itself: misses and nils both absorb. */
  lemma WrapThen(r: Option<Tree>, segs: seq<Segment>)
    ensures Wrap(Resolve(Wrap(r).value, segs)) == Wrap(Then(r, segs))
  {
    if segs != [] && (r.None? || r.value.Nil?) {
      ScalarHasNoPath(Nil, segs);
    }
  }

  /** Chaining `Path` is composition: `For(root, p).Path(q)` is `For(root, p + "." + q)`. */
  lemma PathComposes(root: Tree, p: string, q: string)
    requires p != [] && q != []
    ensures Path(For(root, p), q) == For(root, p + "." + q)
  {
    ParseDot(p, q);
    match Parse(p) {
      case None =>
        AbsencePropagates(For(root, p), q, []);
      case Some(ps) =>
        match Parse(q) {
          case None =>
          case Some(qs) =>
            ResolveAppend(root, ps, qs);
            WrapThen(Resolve(root, ps), qs);
        }
    }
  }

  /** Chaining `PathArgs` is composition of the explicit arguments. */
  lemma PathArgsComposes(root: Tree, a1: seq<Tree>, a2: seq<Tree>)
    ensures PathArgs(ForArgs(root, a1), a2) == ForArgs(root, a1 + a2)
  {
    ArgsAppend(a1, a2);
    match ArgsToSegments(a1) {
      case None =>
        AbsencePropagates(ForArgs(root, a1), [], a2);
      case Some(s1) =>
        match ArgsToSegments(a2) {
          case None =>
          case Some(s2) =>
            ResolveAppend(root, s1, s2);
            WrapThen(Resolve(root, s1), s2);
        }
    }
  }

  /** A path then explicit arguments: `For(root, "a").PathArgs(0, "b")` reaches what the joined segments reach. */
  lemma ForThenPathArgs(root: Tree, p: string, args: seq<Tree>)
    ensures PathArgs(For(root, p), args)
            == (var joined := Concat(Parse(p), ArgsToSegments(args));
                if joined.Some? then Wrap(Resolve(root, joined.value)) else Answer(Nil))
  {
    match Parse(p) {
      case None =>
        AbsencePropagates(For(root, p), [], args);
      case Some(ps) =>
        match ArgsToSegments(args) {
          case None =>
          case Some(as_) =>
            ResolveAppend(root, ps, as_);
            WrapThen(Resolve(root, ps), as_);
        }
    }
  }

  /** Explicit arguments naming spellable segments look up exactly what their printed path does. */
  lemma ForArgsMatchesFor(root: Tree, args: seq<Tree>)
    requires ArgsToSegments(args).Some? && Renderable(ArgsToSegments(args).value)
    ensures ForArgs(root, args) == For(root, Render(ArgsToSegments(args).value))
  {
    ParseRender(ArgsToSegments(args).value);
  }

  /** An explicit key is never split at dots: the literal key `c.d` is looked up as one key. */
  lemma ExplicitKeyIsLiteral(root: Tree, k: string)
    requires k != []
    ensures ForArgs(root, [Text(k)]) == Wrap(Child(root, Key(k)))
  {
    assert [Text(k)][1..] == [];
    assert [Key(k)] + [] == [Key(k)];
    assert ArgsToSegments([Text(k)]) == Some([Key(k)]);
    assert [Key(k)][1..] == [];
    assert Resolve(root, [Key(k)]) == Child(root, Key(k));
  }

  /** Looking up a printed segment list reaches exactly what the segments reach. */
  lemma ForRendered(root: Tree, segs: seq<Segment>)
    requires Renderable(segs)
    ensures For(root, Render(segs)) == Wrap(Resolve(root, segs))
  {
    ParseRender(segs);
  }
}
