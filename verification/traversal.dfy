/**
  The traversal engine: segments are applied one at a time to the current
  tree. A key applies only to a mapping that holds it, an index only to a
  sequence it lies within; any other step makes the lookup miss.
 */
module Traversal {
  import opened Wrappers
  import opened Values

  /** The child a single segment selects, if any. */
  function Child(t: Tree, s: Segment): (r: Option<Tree>)
  {
    match s
    case Key(k) => if t.Mapping? && k in t.entries then Some(t.entries[k]) else None
    case Index(i) => if t.Sequence? && 0 <= i < |t.items| then Some(t.items[i]) else None
  }

  /** Folds the segments over the tree; `None` is a miss somewhere along the way. */
  function Resolve(t: Tree, segs: seq<Segment>): (r: Option<Tree>)
    ensures r.Some? && segs != [] ==> t.Mapping? || t.Sequence?
    decreases |segs|
  {
    if segs == [] then Some(t)
    else
      match Child(t, segs[0])
      case None => None
      case Some(c) => Resolve(c, segs[1..])
  }

  /** Continues a lookup from a previous outcome; a miss stays a miss. */
  function Then(r: Option<Tree>, segs: seq<Segment>): (out: Option<Tree>)
  {
    match r
    case None => None
    case Some(t) => Resolve(t, segs)
  }

  /** Resolving a concatenation is resolving the first part, then the second from where it ended. */
  lemma {:induction false} ResolveAppend(t: Tree, a: seq<Segment>, b: seq<Segment>)
    ensures Resolve(t, a + b) == Then(Resolve(t, a), b)
    decreases |a|
  {
    if a == [] {
      assert a + b == b;
    } else {
      assert (a + b)[0] == a[0];
      assert (a + b)[1..] == a[1..] + b;
      match Child(t, a[0]) {
        case None =>
        case Some(c) => ResolveAppend(c, a[1..], b);
      }
    }
  }

  /** A key selects exactly the mapping's entry; an index exactly the sequence's element. */
  lemma ResolveOneStep(t: Tree, s: Segment)
    ensures Resolve(t, [s]).Some? <==>
              (s.Key? && t.Mapping? && s.name in t.entries)
              || (s.Index? && t.Sequence? && 0 <= s.pos < |t.items|)
    ensures Resolve(t, [s]).Some? && s.Key? ==> Resolve(t, [s]).value == t.entries[s.name]
    ensures Resolve(t, [s]).Some? && s.Index? ==> Resolve(t, [s]).value == t.items[s.pos]
  {
    assert [s][1..] == [];
  }

  /** A scalar (or nil) has no children: any non-empty path from it misses. */
  lemma ScalarHasNoPath(t: Tree, segs: seq<Segment>)
    requires !t.Mapping? && !t.Sequence?
    requires segs != []
    ensures Resolve(t, segs) == None
  {
  }

  /** A found value lies on a path whose every proper prefix is found as well. */
  lemma {:induction false} ResolvePrefix(t: Tree, segs: seq<Segment>, n: nat)
    requires n <= |segs|
    requires Resolve(t, segs).Some?
    ensures Resolve(t, segs[..n]).Some?
  {
    assert segs == segs[..n] + segs[n..];
    ResolveAppend(t, segs[..n], segs[n..]);
  }

  /** A walk that gets through `p` but whose last step misses is a plain miss: no partial value survives. */
  lemma LastStepMiss(t: Tree, p: seq<Segment>, s: Segment)
    requires Resolve(t, p).Some? && Child(Resolve(t, p).value, s) == None
    ensures Resolve(t, p + [s]) == None
  {
    ResolveAppend(t, p, [s]);
    assert [s][1..] == [];
  }

  /** The iterative engine: keeps a current node and stops at the first segment that misses. */
  method Lookup(root: Tree, segs: seq<Segment>) returns (r: Option<Tree>)
    ensures r == Resolve(root, segs)
  {
    var current := root;
    var i := 0;
    while i < |segs|
      invariant 0 <= i <= |segs|
      invariant Resolve(root, segs) == Resolve(current, segs[i..])
    {
      assert segs[i..][0] == segs[i] && segs[i..][1..] == segs[i + 1..];
      match Child(current, segs[i]) {
        case None =>
          return None;
        case Some(c) =>
          current := c;
      }
      i := i + 1;
    }
    return Some(current);
  }
}
