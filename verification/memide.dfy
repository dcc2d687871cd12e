/** The in-memory IDE disk: a row of 512-byte sectors behind one synchronising call. */
module MemIde {
  import opened Blocks

  /** A buffer; `busy`, `valid` and `dirty` are the bits B_BUSY, B_VALID and B_DIRTY of its flags. */
  datatype Buf = Buf(dev: int, sector: nat, busy: bool, valid: bool, dirty: bool, data: Block)

  const DISK_DEV := 1

  class Disk {
    var sectors: Image
    /** The disk image after every sector write so far, oldest first: the images a crash can leave. */
    ghost var trace: seq<Image>

    constructor (image: Image)
      ensures sectors == image && trace == []
    {
      sectors := image;
      trace := [];
    }

    /** Write a dirty buffer to its sector, or read an invalid one from it. */
    method Iderw(b: Buf) returns (r: Buf)
      requires b.busy                          // "iderw: buf not busy"
      requires b.dirty || !b.valid             // "iderw: nothing to do"
      requires b.dev == DISK_DEV               // "iderw: request not for disk 1"
      requires b.sector < |sectors|            // "iderw: sector out of range"
      modifies this
      ensures |sectors| == |old(sectors)|
      ensures r.valid && !r.dirty && r.data == sectors[b.sector]
      ensures r.dev == b.dev && r.sector == b.sector && r.busy
      ensures b.dirty ==>
                r.data == b.data && sectors == old(sectors)[b.sector := b.data] && trace == old(trace) + [sectors]
      ensures !b.dirty ==> sectors == old(sectors) && trace == old(trace)
    {
      if b.dirty {
        r := b.(dirty := false);
        sectors := sectors[b.sector := b.data];
        trace := trace + [sectors];
      } else {
        r := b.(data := sectors[b.sector]);
      }
      r := r.(valid := true);
    }
  }
}
