// Writing a sequence of blocks one after the other, as a serializer's
// `out += block` loop does, and where each block ends up in the result.
module Joining {

  /** The blocks written one after the other. */
  function Concat<T>(blocks: seq<seq<T>>): seq<T>
    decreases |blocks|
  {
    if blocks == [] then [] else Concat(blocks[..|blocks| - 1]) + blocks[|blocks| - 1]
  }

  lemma {:induction false} ConcatAppend<T>(a: seq<seq<T>>, b: seq<seq<T>>)
    ensures Concat(a + b) == Concat(a) + Concat(b)
    decreases |b|
  {
    if b == [] {
      assert a + b == a;
    } else {
      var b', x := b[..|b| - 1], b[|b| - 1];
      assert Concat(a + b) == Concat(a + b') + x by {
        assert (a + b)[..|a + b| - 1] == a + b';
        assert (a + b)[|a + b| - 1] == x;
      }
      assert Concat(b) == Concat(b') + x;
      ConcatAppend(a, b');
      AppendAssociative(Concat(a), Concat(b'), x);
    }
  }

  /** In the written blocks, block i sits between the blocks before it and
      the blocks after it. */
  lemma BlockAt<T>(blocks: seq<seq<T>>, i: nat)
    requires i < |blocks|
    ensures Concat(blocks) == Concat(blocks[..i]) + blocks[i] + Concat(blocks[i + 1..])
  {
    var front, back := blocks[..i + 1], blocks[i + 1..];
    assert Concat(blocks) == Concat(front) + Concat(back) by {
      assert front + back == blocks;
      ConcatAppend(front, back);
    }
    ConcatNext(blocks, i);
  }

  /** Nothing is written before the first block, and the whole run of
      blocks is written after the last. */
  lemma ConcatEnds<T>(blocks: seq<seq<T>>)
    ensures Concat(blocks[..0]) == []
    ensures Concat(blocks[..|blocks|]) == Concat(blocks)
  {
    assert blocks[..0] == [];
    assert blocks[..|blocks|] == blocks;
  }

  /** Writing one more block extends the written text by that block. */
  lemma ConcatNext<T>(blocks: seq<seq<T>>, i: nat)
    requires i < |blocks|
    ensures Concat(blocks[..i + 1]) == Concat(blocks[..i]) + blocks[i]
  {
    assert blocks[..i + 1][..i] == blocks[..i];
  }

  lemma AppendAssociative<T>(a: seq<T>, b: seq<T>, c: seq<T>)
    ensures (a + b) + c == a + (b + c)
  {
  }
}
