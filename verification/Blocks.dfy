/** Logical blocks and writing them to a store. */
module Blocks {

  /** The contents of a logical block; a block of zero bytes is 0. */
  type Block = int

  /** A store with `data` written at block `at`. */
  function Put(store: seq<Block>, at: nat, data: seq<Block>): (s: seq<Block>)
    requires at + |data| <= |store|
    ensures |s| == |store|
  {
    if data == [] then store
    else
      var n := |data| - 1;
      Put(store, at, data[..n])[at + n := data[n]]
  }

  lemma {:induction false} PutAt(store: seq<Block>, at: nat, data: seq<Block>, i: nat)
    requires at + |data| <= |store| && i < |store|
    ensures Put(store, at, data)[i] == if at <= i < at + |data| then data[i - at] else store[i]
  {
    if data != [] {
      PutAt(store, at, data[..|data| - 1], i);
    }
  }

  /** Adjacent writes are one write. */
  lemma {:induction false} PutTwice(store: seq<Block>, at: nat, data: seq<Block>, a: nat, b: nat)
    requires a + b <= |data| && at + |data| <= |store|
    ensures Put(Put(store, at, data[..a]), at + a, data[a..a + b]) == Put(store, at, data[..a + b])
  {
    if b > 0 {
      PutTwice(store, at, data, a, b - 1);
      assert data[a..a + b][..b - 1] == data[a..a + b - 1] && data[..a + b][..a + b - 1] == data[..a + b - 1];
    }
  }
}
