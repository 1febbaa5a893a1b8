/** A sequence kept in a table of blocks of fixed size, as split_to_array keeps its pointers (posix/lib/lib.c). */
module Flattening {

  function Flat<T>(blocks: seq<seq<T>>): seq<T> {
    if blocks == [] then [] else Flat(blocks[..|blocks| - 1]) + blocks[|blocks| - 1]
  }

  /** Entry k of block b is this far into the sequence. */
  lemma {:induction false} FlatAt<T>(blocks: seq<seq<T>>, b: nat, k: nat)
    requires b < |blocks| && k < |blocks[b]|
    ensures var i := |Flat(blocks[..b])| + k; i < |Flat(blocks)| && Flat(blocks)[i] == blocks[b][k]
  {
    if b < |blocks| - 1 {
      FlatAt(blocks[..|blocks| - 1], b, k);
      assert blocks[..|blocks| - 1][..b] == blocks[..b];
    }
  }

  lemma FlatNext<T>(blocks: seq<seq<T>>, b: nat)
    requires b < |blocks|
    ensures |Flat(blocks[..b + 1])| == |Flat(blocks[..b])| + |blocks[b]|
  {
    assert blocks[..b + 1][..b] == blocks[..b];
  }

  /** Empty blocks at the end add nothing. */
  lemma {:induction false} FlatEnd<T>(blocks: seq<seq<T>>, b: nat)
    requires b <= |blocks| && forall c :: b <= c < |blocks| ==> blocks[c] == []
    ensures Flat(blocks) == Flat(blocks[..b])
  {
    if b == |blocks| {
      assert blocks[..b] == blocks;
    } else {
      FlatEnd(blocks[..|blocks| - 1], b);
      assert blocks[..|blocks| - 1][..b] == blocks[..b];
    }
  }

  lemma {:induction false} FlatFull<T>(blocks: seq<seq<T>>, size: nat)
    requires forall b :: 0 <= b < |blocks| ==> |blocks[b]| == size
    ensures |Flat(blocks)| == |blocks| * size
  {
    if blocks != [] {
      FlatFull(blocks[..|blocks| - 1], size);
      OneMore(|blocks| - 1, size);
    }
  }

  lemma OneMore(n: nat, size: nat)
    ensures (n + 1) * size == n * size + size
  {
  }

  /** The table holds items: blocks before blockPos are full, block blockPos has stringPos entries, later ones none. */
  ghost predicate TableOk<T>(blocks: seq<seq<T>>, size: nat, stringPos: nat, blockPos: nat, items: seq<T>) {
    && Flat(blocks) == items && stringPos < size && blockPos <= |blocks| && (blockPos == |blocks| ==> stringPos == 0)
    && (forall b :: 0 <= b < blockPos ==> |blocks[b]| == size)
    && (blockPos < |blocks| ==> |blocks[blockPos]| == stringPos)
    && (forall b :: blockPos < b < |blocks| ==> blocks[b] == [])
  }

  /** There is a block for the next item as long as the table is not full. */
  lemma BlockLeft<T>(blocks: seq<seq<T>>, size: nat, stringPos: nat, blockPos: nat, items: seq<T>)
    requires TableOk(blocks, size, stringPos, blockPos, items) && |items| < |blocks| * size
    ensures blockPos < |blocks|
  {
    if blockPos == |blocks| { FlatFull(blocks, size); }
  }

  lemma FlatAppend<T>(blocks: seq<seq<T>>, b: nat, item: T)
    requires b < |blocks| && forall c :: b < c < |blocks| ==> blocks[c] == []
    ensures Flat(blocks[b := blocks[b] + [item]]) == Flat(blocks) + [item]
  {
    var after := blocks[b := blocks[b] + [item]];
    FlatEnd(blocks, b + 1);
    FlatEnd(after, b + 1);
    assert blocks[..b + 1][..b] == blocks[..b] && after[..b + 1][..b] == blocks[..b];
  }

  /** blocks[block_pos].strings[string_pos] = item, and on to the next place */
  method Add<T>(blocks: array<seq<T>>, size: nat, stringPos: nat, blockPos: nat, item: T, ghost items: seq<T>)
    returns (stringPos': nat, blockPos': nat)
    requires TableOk(blocks[..], size, stringPos, blockPos, items) && |items| < blocks.Length * size
    modifies blocks
    ensures TableOk(blocks[..], size, stringPos', blockPos', items + [item])
  {
    BlockLeft(blocks[..], size, stringPos, blockPos, items);
    FlatAppend(blocks[..], blockPos, item);
    blocks[blockPos] := blocks[blockPos] + [item];
    assert blocks[..] == old(blocks[..])[blockPos := old(blocks[blockPos]) + [item]];
    stringPos', blockPos' := stringPos + 1, blockPos;
    if stringPos' >= size {
      stringPos', blockPos' := 0, blockPos' + 1;
    }
  }

  /** Copies the table into one array. */
  method Flatten<T(0)>(blocks: array<seq<T>>, size: nat, ghost stringPos: nat, ghost blockPos: nat, count: nat,
                       ghost items: seq<T>)
    returns (result: array<T>)
    requires TableOk(blocks[..], size, stringPos, blockPos, items) && count == |items|
    ensures fresh(result) && result[..] == items
  {
    result := new T[count];
    var s, b := 0, 0;
    for i := 0 to count
      invariant b <= blocks.Length && s < size && i == |Flat(blocks[..b])| + s && (b == blocks.Length ==> s == 0)
      invariant b < blocks.Length ==> s <= |blocks[b]|
      invariant result[..i] == items[..i]
      invariant fresh(result) && blocks[..] == old(blocks[..])
    {
      ItemThere(blocks[..], size, stringPos, blockPos, items, s, b);
      FlatAt(blocks[..], b, s);
      FlatNext(blocks[..], b);
      assert blocks[..][..b] == blocks[..b] && blocks[..][..b + 1] == blocks[..b + 1];
      result[i] := blocks[b][s];
      s := s + 1;
      if s >= size {
        s, b := 0, b + 1;
      }
    }
  }

  lemma ItemThere<T>(blocks: seq<seq<T>>, size: nat, stringPos: nat, blockPos: nat, items: seq<T>, s: nat, b: nat)
    requires TableOk(blocks, size, stringPos, blockPos, items)
    requires b <= |blocks| && s < size && (b == |blocks| ==> s == 0) && (b < |blocks| ==> s <= |blocks[b]|)
    requires |Flat(blocks[..b])| + s < |items|
    ensures b < |blocks| && s < |blocks[b]|
  {
    assert blocks[..|blocks|] == blocks;
    if blockPos <= b < |blocks| {
      FlatEnd(blocks, b + 1);
      FlatNext(blocks, b);
    }
  }
}
