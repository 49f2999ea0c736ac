/** Bytes, and pieces of bytes put end to end. */
module ByteStrings {

  type Byte = b: int | 0 <= b < 256

  function Flat(parts: seq<seq<Byte>>): seq<Byte> {
    if parts == [] then [] else Flat(parts[..|parts| - 1]) + parts[|parts| - 1]
  }

  lemma {:induction false} FlatAppend(a: seq<seq<Byte>>, b: seq<seq<Byte>>)
    ensures Flat(a + b) == Flat(a) + Flat(b)
  {
    if b == [] {
      assert a + b == a;
    } else {
      var last := |b| - 1;
      FlatAppend(a, b[..last]);
      assert a + b == (a + b[..last]) + [b[last]];
      assert b == b[..last] + [b[last]];
      FlatSnoc(a + b[..last], b[last]);
      FlatSnoc(b[..last], b[last]);
      hide Flat;
      assert Flat(a) + (Flat(b[..last]) + b[last]) == (Flat(a) + Flat(b[..last])) + b[last];
    }
  }

  lemma FlatSnoc(parts: seq<seq<Byte>>, p: seq<Byte>)
    ensures Flat(parts + [p]) == Flat(parts) + p
  {
    assert (parts + [p])[..|parts + [p]| - 1] == parts;
  }
}
