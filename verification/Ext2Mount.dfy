/** The checks of ext2_init() (ext2/ext2.c) before a volume is used, as far as the model has what they read. */
module Ext2Mount {
  import opened Bitmap
  import opened Ext2Vol
  import opened Ext2Core
  import opened Ext2Path

  const DOT: seq<byte> := [46]
  const DOT_DOT: seq<byte> := [46, 46]

  /** The blocks that a group descriptor names: both bitmaps and the start of the inode table. */
  datatype GroupDesc = GroupDesc(blockBitmap: nat, inodeBitmap: nat, inodeTable: nat)

  /** What ext2_init() checks of a group. */
  predicate GroupMounts(g: Geometry, desc: GroupDesc, i: nat, groups: nat, inodeSize: nat)
    requires g.Ok()
  {
    var first := i * g.blocksPerGroup + g.firstDataBlock;
    var last := if i + 1 == groups then g.blocksCount - 1 else first + g.blocksPerGroup - 1;
    var tableEnd := desc.inodeTable + (g.inodesPerGroup * inodeSize + g.blockSize - 1) / g.blockSize - 1;
    && first <= desc.blockBitmap <= last && first <= desc.inodeBitmap <= last
    && first <= desc.inodeTable <= last && first <= tableEnd <= last
    && desc.blockBitmap in g.meta && desc.inodeBitmap in g.meta
    && forall b :: desc.inodeTable <= b <= tableEnd ==> b in g.meta
  }

  const MIN_FS_SIZE := 60 * 1024

  /** What ext2_init() checks of a volume, as far as the model has it. */
  predicate Mounts(v: Vol, bgd: seq<GroupDesc>, inodeSize: nat) {
    && v.Shape()
    && MIN_FS_SIZE <= v.geo.blocksCount * v.geo.blockSize
    && inodeSize % 2 == 0 && inodeSize <= v.geo.blockSize
    && v.geo.blocksPerGroup <= 8 * v.geo.blockSize && v.geo.inodesPerGroup <= 8 * v.geo.blockSize
    && |bgd| == (v.geo.blocksCount - v.geo.firstDataBlock + v.geo.blocksPerGroup - 1) / v.geo.blocksPerGroup
    && (1 < |bgd| ==> v.geo.blocksPerGroup <= v.geo.blocksCount)
    && (forall i :: 0 <= i < |bgd| ==> GroupMounts(v.geo, bgd[i], i, |bgd|, inodeSize))
    && Dir(v, ROOT) && v.Ino(ROOT).i512 != 0 && v.Ino(ROOT).size != 0
    && Resolve(v, ROOT, [SLASH] + DOT) == Ok(ROOT) && Resolve(v, ROOT, [SLASH] + DOT_DOT) == Ok(ROOT)
  }
}
