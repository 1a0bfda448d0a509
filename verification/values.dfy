/**
  The generic decoded tree the accessor navigates, and the segments a path is
  made of. Go's `interface{}` values are closed here into one variant type:
  named container types are ordinary `Sequence`/`Mapping` nodes, and every
  integer width is carried by its canonical 64-bit kind.
 */
module Values {

  const MinInt64: int := -0x8000_0000_0000_0000
  const MaxInt64: int := 0x7fff_ffff_ffff_ffff
  const MaxUint64: int := 0xffff_ffff_ffff_ffff

  type Int64 = x: int | MinInt64 <= x <= MaxInt64
  type Uint64 = x: int | 0 <= x <= MaxUint64

  /** A dynamically typed value: a scalar, a sequence or a mapping from text keys. */
  datatype Tree =
    | Nil
    | Text(s: string)
    | Boolean(b: bool)
    | Signed(i: Int64)
    | Unsigned(u: Uint64)
    | Floating(f: real)
    | Sequence(items: seq<Tree>)
    | Mapping(entries: map<string, Tree>)

  /** One step of a path: a key into a mapping or a position in a sequence. */
  datatype Segment = Key(name: string) | Index(pos: int)
}
