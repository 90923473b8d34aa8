/** Byte streams and the two bytes that end a line. */
module Bytes {

  newtype Byte = x: int | 0 <= x < 256

  const LF: Byte := 10
  const CR: Byte := 13

  function Flatten(chunks: seq<seq<Byte>>): seq<Byte> {
    if chunks == [] then [] else chunks[0] + Flatten(chunks[1..])
  }

  predicate IsBreak(b: Byte) {
    b == LF || b == CR
  }

  // Index of the first line break, or the length when there is none.
  function BreakAt(s: seq<Byte>): (i: nat)
    ensures i <= |s|
    ensures forall j :: 0 <= j < i ==> !IsBreak(s[j])
    ensures i < |s| ==> IsBreak(s[i])
  {
    if s == [] then 0 else if IsBreak(s[0]) then 0 else 1 + BreakAt(s[1..])
  }

  // Those three facts determine the index.
  lemma BreakAtUnique(s: seq<Byte>, i: nat)
    requires i <= |s|
    requires forall j :: 0 <= j < i ==> !IsBreak(s[j])
    requires i < |s| ==> IsBreak(s[i])
    ensures BreakAt(s) == i
  {
    var k := BreakAt(s);
    assert k < |s| ==> IsBreak(s[k]);
    assert i < |s| ==> IsBreak(s[i]);
  }

  lemma {:induction false} FlattenAppend(a: seq<seq<Byte>>, b: seq<seq<Byte>>)
    ensures Flatten(a + b) == Flatten(a) + Flatten(b)
  {
    if a == [] {
      assert a + b == b;
    } else {
      assert (a + b)[1..] == a[1..] + b;
      FlattenAppend(a[1..], b);
    }
  }
}
