/** The blocks of a file as the format of the disk gives them: chains of pointers from the fifteen pointers of an inode.
    What file_truncate() of ext2/ext2.c frees is compared with them. */
module Ext2Reach {
  import opened Ext2Vol
  import opened Ext2Tree

  /** The four bytes at `at` are the little-endian number `x`. */
  predicate Word(block: Block, at: nat, x: nat) {
    && at + 4 <= |block|
    && x == block[at] as nat + 0x100 * block[at + 1] as nat + 0x10000 * block[at + 2] as nat +
            0x1000000 * block[at + 3] as nat
  }

  /** Block `b` lists block `x`: one of its words is `x`, which is not 0. */
  ghost predicate Lists(disk: seq<Block>, b: nat, x: nat) {
    0 < x && b < |disk| && exists i: nat :: Word(disk[b], 4 * i, x)
  }

  /** `x` is `b`, or at most `steps` blocks deep below it. */
  ghost predicate Within(disk: seq<Block>, b: nat, x: nat, steps: nat)
    decreases steps
  {
    0 < b && (x == b || (0 < steps && exists m: nat :: Lists(disk, b, m) && Within(disk, m, x, steps - 1)))
  }

  /** The twelve direct blocks, and what is one, two or three blocks deep below the other three pointers. */
  ghost predicate Reachable(disk: seq<Block>, blocks: seq<nat>, x: nat)
    requires |blocks| == 15
  {
    || (0 < x && x in blocks[..12])
    || Within(disk, blocks[12], x, 1) || Within(disk, blocks[13], x, 2) || Within(disk, blocks[14], x, 3)
  }

  /** An entry of an indirect block is one of its words. */
  lemma EntryIsWord(block: Block, i: nat, x: nat)
    ensures Word(block, 4 * i, x) <==> 4 * i + 4 <= |block| && Entry(block, i) == x
  {
  }

  lemma Listed(disk: seq<Block>, b: nat, i: nat)
    requires b < |disk| && 4 * i + 4 <= |disk[b]| && 0 < Entry(disk[b], i)
    ensures Lists(disk, b, Entry(disk[b], i))
  {
    EntryIsWord(disk[b], i, Entry(disk[b], i));
  }

  lemma {:induction false} ForestMembers(disk: seq<Block>, block: Block, n: nat, level: nat, x: nat)
    requires 4 * n <= |block|
    ensures x in Forest(disk, block, n, level) <==> exists i :: 0 <= i < n && x in Tree(disk, Entry(block, i), level)
    decreases n
  {
    if n > 0 {
      ForestMembers(disk, block, n - 1, level, x);
    }
  }

  /** The tree below a pointer is what can be reached from it. */
  lemma {:induction false} TreeReaches(disk: seq<Block>, b: nat, level: nat, x: nat)
    ensures x in Tree(disk, b, level) <==> Within(disk, b, x, level)
    decreases level
  {
    hide Entry, Word, Forest;
    if 0 < b < |disk| && 0 < level && x != b {
      var block := disk[b];
      var n := |block| / 4;
      ForestMembers(disk, block, n, level - 1, x);
      forall i | 0 <= i < n && x in Tree(disk, Entry(block, i), level - 1)
        ensures Within(disk, b, x, level)
      {
        TreeReaches(disk, Entry(block, i), level - 1, x);
        Listed(disk, b, i);
        assert Lists(disk, b, Entry(block, i));
      }
      forall m: nat | Lists(disk, b, m) && Within(disk, m, x, level - 1)
        ensures exists i :: 0 <= i < n && x in Tree(disk, Entry(block, i), level - 1)
      {
        var i: nat :| Word(block, 4 * i, m);
        EntryIsWord(block, i, m);
        TreeReaches(disk, m, level - 1, x);
      }
    }
  }

  /** The trees of the direct blocks. */
  lemma {:induction false} DirectMembers(disk: seq<Block>, blocks: seq<nat>, n: nat, x: nat)
    requires n <= |blocks| && n <= 12
    ensures x in FileTree(disk, blocks, n) <==> 0 < x && x in blocks[..n]
  {
    if n > 0 {
      DirectMembers(disk, blocks, n - 1, x);
      assert blocks[..n] == blocks[..n - 1] + [blocks[n - 1]];
    }
  }

  /** The tree of a file is what can be reached from its fifteen pointers. */
  lemma FileReaches(disk: seq<Block>, blocks: seq<nat>, x: nat)
    requires |blocks| == 15
    ensures x in FileTree(disk, blocks, 15) <==> Reachable(disk, blocks, x)
  {
    DirectMembers(disk, blocks, 12, x);
    TreeReaches(disk, blocks[12], 1, x);
    TreeReaches(disk, blocks[13], 2, x);
    TreeReaches(disk, blocks[14], 3, x);
    FileTreeTop(disk, blocks, x);
  }

  lemma FileTreeTop(disk: seq<Block>, blocks: seq<nat>, x: nat)
    requires |blocks| == 15
    ensures x in FileTree(disk, blocks, 15) <==>
            x in FileTree(disk, blocks, 12) || x in Tree(disk, blocks[12], 1) || x in Tree(disk, blocks[13], 2) ||
            x in Tree(disk, blocks[14], 3)
  {
    hide Tree;
    FileTreeLast(disk, blocks, 14, x);
    FileTreeLast(disk, blocks, 13, x);
    FileTreeLast(disk, blocks, 12, x);
  }

  lemma FileTreeLast(disk: seq<Block>, blocks: seq<nat>, n: nat, x: nat)
    requires n < |blocks|
    ensures x in FileTree(disk, blocks, n + 1) <==>
            x in FileTree(disk, blocks, n) || x in Tree(disk, blocks[n], Level(n))
  {
  }

  /** Freeing a list of blocks in use makes exactly these blocks newly free. */
  lemma NewlyFree(v: Vol, s: seq<nat>, x: nat)
    requires Freeable(v, s)
    ensures x in GiveAll(v, s).freeBlocks && x !in v.freeBlocks <==> x in s
  {
  }
}
