/** Small shared vocabulary: bytes, optional values and concatenation of byte strings. */
module Common {

  type byte = b: int | 0 <= b < 256

  datatype Option<+T> = None | Some(value: T)

  /** The value of a two-byte big-endian field. */
  function Be16(hi: byte, lo: byte): nat { 256 * hi + lo }

  /** The value of a two-byte little-endian field. */
  function Le16(lo: byte, hi: byte): nat { lo + 256 * hi }

  /** All the strings of `ss`, one after the other. */
  function Concat<T>(ss: seq<seq<T>>): seq<T> {
    if ss == [] then [] else ss[0] + Concat(ss[1..])
  }

  lemma {:induction false} ConcatAppend<T>(a: seq<seq<T>>, b: seq<seq<T>>)
    ensures Concat(a + b) == Concat(a) + Concat(b)
  {
    if a == [] {
      assert a + b == b;
    } else {
      assert (a + b)[0] == a[0] && (a + b)[1..] == a[1..] + b;
      ConcatAppend(a[1..], b);
    }
  }

  lemma ConcatOne<T>(a: seq<seq<T>>, s: seq<T>)
    ensures Concat(a + [s]) == Concat(a) + s
  {
    ConcatAppend(a, [s]);
    assert Concat([s]) == s + Concat([]) == s;
  }
}
