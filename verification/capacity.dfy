/** balloc and the log: the bitmap does not mark the sectors of the log, which lie at the end of the disk. */
module Capacity {
  import opened Optional
  import opened Blocks
  import opened Bitmap
  import opened BlockMap
  import opened FileSystem
  import opened SysFile
  import opened MkfsTree
  import opened Images

  /** balloc scans all blocks of the disk, the log's included. It hands out a sector of the log exactly when every block
      before the log is in use and some sector of the log is not. */
  method BallocNearLog(fs: Fs, logStart: nat) returns (r: Option<nat>)
    requires fs.Valid() && fs.open && logStart <= |fs.blocks|
    modifies fs`bits, fs`blocks, fs`log
    ensures r.Some? && logStart <= r.value <==>
              && (forall c: nat :: c < logStart ==> Used(old(fs.bits), c))
              && (exists c: nat :: logStart <= c < |old(fs.blocks)| && !Used(old(fs.bits), c))
    ensures |fs.blocks| == |old(fs.blocks)|
    ensures r.Some? ==> r.value < |fs.blocks| && fs.blocks[r.value] == ZeroBlock
    ensures r.Some? ==> forall c: nat :: c < r.value ==> Used(old(fs.bits), c)
  {
    hide Used, Marked, Owned, Covered;
    r := fs.Balloc();
  }

  /** On a disk that mkfs has filled up to the log, the first balloc returns the first sector of the log. */
  method LogSectorHandedOut() returns (r: Option<nat>)
    ensures r == Some(LOG_START)
  {
    hide Used, Fs.Valid, TreeOk, Shows, EmptyLog;
    var fs := FullDisk();
    BeginTree(fs);
    TreeValid(fs);
    assert !Used(fs.bits, LOG_START);
    r := BallocNearLog(fs, LOG_START);
  }

  lemma TreeValid(fs: Fs)
    requires TreeOk(fs)
    ensures fs.Valid()
  {
    hide Fs.Valid;
  }
}
