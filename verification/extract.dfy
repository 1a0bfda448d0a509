/**
  Typed extraction: each extractor returns the converted value with `true`,
  or the caller's default with `false` when the answer is absent, has the
  wrong kind, or holds a number outside the target range. Floating-point
  values are modelled as exact reals; conversion to an integer truncates
  toward zero.
 */
module Extract {
  import opened Wrappers
  import opened Values
  import opened Answers

  /** Go's float-to-integer conversion: drop the fractional part, rounding toward zero. */
  function Truncate(f: real): (n: int)
    ensures f >= 0.0 ==> 0 <= n && n as real <= f < n as real + 1.0
    ensures f < 0.0 ==> n <= 0 && n as real - 1.0 < f <= n as real
  {
    if f >= 0.0 then f.Floor else -((-f).Floor)
  }

  /** The number a numeric kind stands for, whatever its width or signedness. */
  function Numeric(t: Tree): (r: Option<real>)
  {
    match t
    case Signed(i) => Some(i as real)
    case Unsigned(u) => Some(u as real)
    case Floating(f) => Some(f)
    case _ => None
  }

  /** The text, only if the value's kind is text. */
  function String(a: Answer, default: string): (r: (string, bool))
    ensures r.1 <==> a.value.Text?
    ensures r.1 ==> r.0 == a.value.s
    ensures !r.1 ==> r.0 == default
  {
    match a.value
    case Text(s) => (s, true)
    case _ => (default, false)
  }

  /** The flag, only if the value's kind is boolean. */
  function Bool(a: Answer, default: bool): (r: (bool, bool))
    ensures r.1 <==> a.value.Boolean?
    ensures r.1 ==> r.0 == a.value.b
    ensures !r.1 ==> r.0 == default
  {
    match a.value
    case Boolean(b) => (b, true)
    case _ => (default, false)
  }

  /** A signed 64-bit integer from any numeric kind whose value lies in range. */
  function Int(a: Answer, default: Int64): (r: (Int64, bool))
    ensures r.1 <==> Numeric(a.value).Some?
                     && MinInt64 as real <= Numeric(a.value).value <= MaxInt64 as real
    ensures r.1 ==> r.0 == Truncate(Numeric(a.value).value)
    ensures !r.1 ==> r.0 == default
  {
    match a.value
    case Signed(i) => (i, true)
    case Unsigned(u) => if u <= MaxInt64 then (u, true) else (default, false)
    case Floating(f) =>
      if MinInt64 as real <= f <= MaxInt64 as real then (Truncate(f), true) else (default, false)
    case _ => (default, false)
  }

  /** An unsigned 64-bit integer from any numeric kind whose value is non-negative and in range. */
  function Uint(a: Answer, default: Uint64): (r: (Uint64, bool))
    ensures r.1 <==> Numeric(a.value).Some?
                     && 0.0 <= Numeric(a.value).value <= MaxUint64 as real
    ensures r.1 ==> r.0 == Truncate(Numeric(a.value).value)
    ensures !r.1 ==> r.0 == default
  {
    match a.value
    case Signed(i) => if i >= 0 then (i, true) else (default, false)
    case Unsigned(u) => (u, true)
    case Floating(f) =>
      if 0.0 <= f <= MaxUint64 as real then (Truncate(f), true) else (default, false)
    case _ => (default, false)
  }

  /** The elements, in order, only if the value is a sequence. */
  function Slice(a: Answer, default: seq<Tree>): (r: (seq<Tree>, bool))
    ensures r.1 <==> a.value.Sequence?
    ensures r.1 ==> |r.0| == |a.value.items| && forall k :: 0 <= k < |r.0| ==> r.0[k] == a.value.items[k]
    ensures !r.1 ==> r.0 == default
  {
    match a.value
    case Sequence(items) => (items, true)
    case _ => (default, false)
  }

  /** The entries, only if the value is a mapping. */
  function Map(a: Answer, default: map<string, Tree>): (r: (map<string, Tree>, bool))
    ensures r.1 <==> a.value.Mapping?
    ensures r.1 ==> r.0.Keys == a.value.entries.Keys && forall k :: k in r.0 ==> r.0[k] == a.value.entries[k]
    ensures !r.1 ==> r.0 == default
  {
    match a.value
    case Mapping(entries) => (entries, true)
    case _ => (default, false)
  }

  // ---------------------------------------------------------------------------
  // Properties across the extractors.

  /** On an absent answer every extractor returns its default verbatim, flagged false. */
  lemma AbsentGivesDefaults(a: Answer, s: string, b: bool, i: Int64, u: Uint64, l: seq<Tree>, m: map<string, Tree>)
    requires !Exists(a)
    ensures String(a, s) == (s, false)
    ensures Bool(a, b) == (b, false)
    ensures Int(a, i) == (i, false)
    ensures Uint(a, u) == (u, false)
    ensures Slice(a, l) == (l, false)
    ensures Map(a, m) == (m, false)
  {
  }

  /** A true flag implies the answer exists; the flag is the only thing telling a value from a fallback. */
  lemma FlagImpliesExists(a: Answer, s: string, b: bool, i: Int64, u: Uint64, l: seq<Tree>, m: map<string, Tree>)
    ensures String(a, s).1 || Bool(a, b).1 || Int(a, i).1 || Uint(a, u).1 || Slice(a, l).1 || Map(a, m).1
            ==> Exists(a)
  {
  }

  /** Where both numeric extractors succeed they agree, and for an integral value they succeed together exactly on [0, MaxInt64]. */
  lemma IntUintAgree(a: Answer, i: Int64, u: Uint64)
    ensures Int(a, i).1 && Uint(a, u).1 ==> Int(a, i).0 == Uint(a, u).0
    ensures a.value.Signed? || a.value.Unsigned? ==>
              (Int(a, i).1 && Uint(a, u).1 <==> 0.0 <= Numeric(a.value).value <= MaxInt64 as real)
  {
  }

  /** A value's kind decides which extractor may succeed: at most one kind-strict extractor has a true flag. */
  lemma KindsExclusive(a: Answer, s: string, b: bool, i: Int64, l: seq<Tree>, m: map<string, Tree>)
    ensures (if String(a, s).1 then 1 else 0) + (if Bool(a, b).1 then 1 else 0)
          + (if Int(a, i).1 then 1 else 0) + (if Slice(a, l).1 then 1 else 0)
          + (if Map(a, m).1 then 1 else 0) <= 1
  {
  }
}
