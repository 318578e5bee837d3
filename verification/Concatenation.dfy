/** Sequences put together from blocks. */
module Concatenation {

  function Concat<T>(blocks: seq<seq<T>>): seq<T> {
    if blocks == [] then [] else blocks[0] + Concat(blocks[1..])
  }

  // Where block i starts in the concatenation.
  function Start<T>(blocks: seq<seq<T>>, i: nat): nat
    requires i <= |blocks|
  {
    |Concat(blocks[..i])|
  }

  lemma {:induction false} ConcatSplit<T>(blocks: seq<seq<T>>, i: nat)
    requires i <= |blocks|
    ensures Concat(blocks) == Concat(blocks[..i]) + Concat(blocks[i..])
  {
    if i > 0 {
      ConcatSplit(blocks[1..], i - 1);
      assert blocks[1..][..i - 1] == blocks[..i][1..] && blocks[1..][i - 1..] == blocks[i..];
    }
  }

  lemma StartNext<T>(blocks: seq<seq<T>>, i: nat)
    requires i < |blocks|
    ensures Concat(blocks[..i + 1]) == Concat(blocks[..i]) + blocks[i]
    ensures Start(blocks, i + 1) == Start(blocks, i) + |blocks[i]|
  {
    ConcatSplit(blocks[..i + 1], i);
    assert blocks[..i + 1][..i] == blocks[..i] && blocks[..i + 1][i..] == [blocks[i]];
    assert Concat([blocks[i]]) == blocks[i] + Concat<T>([]);
  }

  // Each block is found where it starts, and the blocks tile the whole.
  lemma BlockAt<T>(blocks: seq<seq<T>>, i: nat)
    requires i < |blocks|
    ensures Start(blocks, 0) == 0 && Start(blocks, |blocks|) == |Concat(blocks)|
    ensures Start(blocks, i) + |blocks[i]| == Start(blocks, i + 1) <= |Concat(blocks)|
    ensures Concat(blocks)[Start(blocks, i)..Start(blocks, i + 1)] == blocks[i]
  {
    StartNext(blocks, i);
    ConcatSplit(blocks, i + 1);
    assert blocks[..|blocks|] == blocks;
  }

  function Repeat<T>(n: nat, xs: seq<T>): (r: seq<T>) {
    Concat(seq(n, _ => xs))
  }

  lemma {:induction false} RepeatLength<T>(n: nat, xs: seq<T>)
    ensures |Repeat(n, xs)| == n * |xs|
  {
    if n > 0 {
      RepeatNext(n - 1, xs);
      RepeatLength(n - 1, xs);
    }
  }

  lemma RepeatNext<T>(n: nat, xs: seq<T>)
    ensures Repeat(n + 1, xs) == Repeat(n, xs) + xs
  {
    var blocks := seq(n + 1, _ => xs);
    StartNext(blocks, n);
    assert blocks[..n] == seq(n, _ => xs) && blocks[..n + 1] == blocks;
  }

  lemma {:induction false} RepeatSum<T>(n: nat, m: nat, xs: seq<T>)
    ensures Repeat(n + m, xs) == Repeat(n, xs) + Repeat(m, xs)
  {
    if m > 0 {
      RepeatSum(n, m - 1, xs);
      RepeatNext(n + m - 1, xs);
      RepeatNext(m - 1, xs);
    }
  }

  lemma {:induction false} RepeatRepeat<T>(n: nat, m: nat, xs: seq<T>)
    ensures Repeat(n, Repeat(m, xs)) == Repeat(n * m, xs)
  {
    if n > 0 {
      RepeatNext(n - 1, Repeat(m, xs));
      RepeatRepeat(n - 1, m, xs);
      RepeatSum((n - 1) * m, m, xs);
      assert (n - 1) * m + m == n * m;
    }
  }

  // The block an index falls into.
  function BlockOf<T>(blocks: seq<seq<T>>, k: nat): (i: nat)
    requires k < |Concat(blocks)|
    ensures i < |blocks| && Start(blocks, i) <= k < Start(blocks, i) + |blocks[i]|
  {
    if k < |blocks[0]| then 0
    else
      var i := BlockOf(blocks[1..], k - |blocks[0]|);
      assert blocks[..i + 1][0] == blocks[0] && blocks[..i + 1][1..] == blocks[1..][..i];
      i + 1
  }

  lemma {:induction false} StartMonotone<T>(blocks: seq<seq<T>>, i: nat, j: nat)
    requires i < j <= |blocks|
    ensures Start(blocks, i) + |blocks[i]| <= Start(blocks, j)
    decreases j
  {
    StartNext(blocks, j - 1);
    if i < j - 1 { StartMonotone(blocks, i, j - 1); }
  }

  lemma BlockIsUnique<T>(blocks: seq<seq<T>>, k: nat, i: nat)
    requires i < |blocks| && k < |Concat(blocks)| && Start(blocks, i) <= k < Start(blocks, i) + |blocks[i]|
    ensures BlockOf(blocks, k) == i
  {
    var j := BlockOf(blocks, k);
    if i < j { StartMonotone(blocks, i, j); }
    if j < i { StartMonotone(blocks, j, i); }
  }

  ghost predicate SameSizes<A, B>(a: seq<seq<A>>, b: seq<seq<B>>) {
    |a| == |b| && forall k | 0 <= k < |a| :: |a[k]| == |b[k]|
  }

  lemma {:induction false} SameStarts<A, B>(a: seq<seq<A>>, b: seq<seq<B>>, i: nat)
    requires SameSizes(a, b) && i <= |a|
    ensures Start(a, i) == Start(b, i)
  {
    if i > 0 {
      SameStarts(a, b, i - 1);
      StartNext(a, i - 1);
      StartNext(b, i - 1);
    }
  }

  lemma SameConcat<A, B>(a: seq<seq<A>>, b: seq<seq<B>>)
    requires SameSizes(a, b)
    ensures |Concat(a)| == |Concat(b)|
  {
    SameStarts(a, b, |a|);
    assert a[..|a|] == a && b[..|b|] == b;
  }

  lemma InBlock<T>(blocks: seq<seq<T>>, i: nat, k: nat)
    requires i < |blocks| && k < |blocks[i]|
    ensures Start(blocks, i) + k < |Concat(blocks)| && Concat(blocks)[Start(blocks, i) + k] == blocks[i][k]
  {
    BlockAt(blocks, i);
    assert Concat(blocks)[Start(blocks, i)..Start(blocks, i + 1)][k] == blocks[i][k];
  }

  // In two lists of blocks of the same sizes, entry k lies at the same place of the same block.
  lemma SameIndex<A, B>(a: seq<seq<A>>, b: seq<seq<B>>, k: nat) returns (i: nat, j: nat)
    requires SameSizes(a, b) && k < |Concat(b)|
    ensures i < |a| && j < |a[i]| == |b[i]| && Start(b, i) + j == k
    ensures k < |Concat(a)| && Concat(a)[k] == a[i][j]
  {
    i := BlockOf(b, k);
    SameStarts(a, b, i);
    j := k - Start(b, i);
    InBlock(a, i, j);
  }

  lemma ConcatAppend<T>(a: seq<seq<T>>, b: seq<seq<T>>)
    ensures Concat(a + b) == Concat(a) + Concat(b)
  {
    ConcatSplit(a + b, |a|);
    assert (a + b)[..|a|] == a && (a + b)[|a|..] == b;
  }

  lemma ConcatThree<T>(x: seq<T>, y: seq<T>, z: seq<T>)
    ensures Concat([x]) == x && Concat([x, y]) == x + y && Concat([x, y, z]) == x + y + z
  {
    ConcatOne(x);
    ConcatOne(y);
    ConcatOne(z);
    assert [x, y][1..] == [y] && [y, z][1..] == [z] && [x, y, z][1..] == [y, z];
    assert Concat([y, z]) == y + z;
    Reassociate(x, y, z);
  }

  lemma ConcatOne<T>(x: seq<T>)
    ensures Concat([x]) == x
  {
    assert [x][1..] == [] && Concat([x][1..]) == [];
  }

  lemma {:induction false} EmptyBlocks<T>(blocks: seq<seq<T>>)
    requires forall i | 0 <= i < |blocks| :: blocks[i] == []
    ensures Concat(blocks) == []
  {
    if blocks != [] { EmptyBlocks(blocks[1..]); }
  }

  // Some blocks of b are left out in a.
  ghost predicate LeavesOut<T>(a: seq<seq<T>>, b: seq<seq<T>>) {
    |a| == |b| && forall i | 0 <= i < |a| :: a[i] == b[i] || a[i] == []
  }

  // Leaving blocks out shows in the concatenation.
  lemma {:induction false} LeavingOutShows<T>(a: seq<seq<T>>, b: seq<seq<T>>)
    requires LeavesOut(a, b)
    ensures |Concat(a)| <= |Concat(b)| && (Concat(a) == Concat(b) <==> a == b)
    ensures |Concat(a)| == |Concat(b)| <==> a == b
  {
    if a != [] {
      LeavingOutShows(a[1..], b[1..]);
      assert a == [a[0]] + a[1..] && b == [b[0]] + b[1..];
    }
  }

  // ys lies in xs from position at on.
  ghost predicate LiesAt<T>(xs: seq<T>, at: nat, ys: seq<T>) {
    at + |ys| <= |xs| && xs[at..at + |ys|] == ys
  }

  lemma LiesThrough<T>(xs: seq<T>, a: nat, ys: seq<T>, b: nat, zs: seq<T>)
    requires LiesAt(xs, a, ys) && LiesAt(ys, b, zs)
    ensures LiesAt(xs, a + b, zs)
  {
    var slice := xs[a + b..a + b + |zs|];
    forall k {:trigger slice[k]} | 0 <= k < |zs| ensures slice[k] == zs[k] {
      assert zs[k] == ys[b + k] == xs[a..a + |ys|][b + k];
    }
  }

  lemma Reassociate<T>(a: seq<T>, b: seq<T>, c: seq<T>)
    ensures a + (b + c) == a + b + c
  {
  }
}
