/**
 bdrv_commit: copying the allocated sectors of an overlay image into its
 backing file, with every way the operation can end early.
 */
module BlockCommit {
  import opened Basics
  import opened BlockMigration

  const COMMIT_BUF_SECTORS: nat := 2048

  /** Sector i of a file; past its end there are zeros. */
  function Backed(backing: seq<Sector>, i: nat): Sector {
    if i < |backing| then backing[i] else Blank()
  }

  /** What the guest reads: the overlay where it is allocated, the backing file elsewhere. */
  function Visible(overlay: map<nat, Sector>, backing: seq<Sector>, i: nat): Sector {
    if i in overlay then overlay[i] else Backed(backing, i)
  }

  /** Which sectors of the overlay cannot be read and which of the backing file not written, and what failing writes leave. */
  datatype Faults = Faults(unreadable: set<nat>, unwritable: set<nat>, junk: seq<Sector>)

  /** Every sector of the run can be read and written. */
  predicate Copyable(faults: Faults, sector: nat, n: nat, size: nat) {
    sector + n <= size && !Meets(faults.unreadable, sector, n) && !Meets(faults.unwritable, sector, n)
  }

  predicate Meets(bad: set<nat>, sector: nat, n: nat) { exists i: nat | i in bad :: sector <= i < sector + n }

  /** Every allocated sector can be read, lies inside the backing file and can be written there. */
  predicate CanCopy(faults: Faults, total: nat, overlay: map<nat, Sector>, size: nat) {
    forall i | 0 <= i < total && i in overlay :: i !in faults.unreadable && i !in faults.unwritable && i < size
  }

  /** How the parts the code cannot control turn out. */
  datatype Outside = Outside(
    rwRet: int,           // reopening the backing file read-write
    fallbackRet: int,     // reopening it read-only after that failed
    roRet: int,           // reopening it read-only at the end
    faults: Faults,
    emptyRet: int,        // bdrv_make_empty
    kept: set<nat>)       // the sectors a failing bdrv_make_empty leaves behind

  /** A write that fails may have put anything into the sectors it named. */
  function Damaged(backing: seq<Sector>, sector: nat, n: nat, junk: seq<Sector>): seq<Sector> {
    seq(|backing|, i requires 0 <= i < |backing| =>
      if sector <= i < sector + n && i - sector < |junk| then junk[i - sector] else backing[i])
  }

  /** An allocated run as one buffer. */
  function RunOf(overlay: map<nat, Sector>, sector: nat, n: nat): seq<Sector>
    requires forall i | sector <= i < sector + n :: i in overlay
  {
    seq(n, i requires 0 <= i < n => overlay[sector + i])
  }

  class Overlay {
    const total: nat
    const canEmpty: bool
    var isOpen: bool
    var hasBacking: bool
    var keepReadOnly: bool
    var backingReadOnly: bool
    var overlay: map<nat, Sector>
    var backing: seq<Sector>

    /** drv->bdrv_is_allocated: the status of a sector and how many from there share it, at most `max`. */
    method IsAllocated(sector: nat, max: nat) returns (present: bool, n: nat)
      requires sector < total && max > 0
      ensures 1 <= n <= max && sector + n <= total
      ensures forall i | sector <= i < sector + n :: i in overlay <==> present
    {
      present := sector in overlay;
      n := 1;
      while n < max && sector + n < total && ((sector + n) in overlay <==> present)
        invariant 1 <= n <= max && sector + n <= total
        invariant forall i | sector <= i < sector + n :: i in overlay <==> present
      {
        var more: bool := *;
        if !more { break; }
        n := n + 1;
      }
    }

    constructor (total: nat, canEmpty: bool, readOnly: bool, overlay: map<nat, Sector>, backing: seq<Sector>)
      ensures this.total == total && this.canEmpty == canEmpty && this.overlay == overlay && this.backing == backing
      ensures isOpen && hasBacking && !keepReadOnly && backingReadOnly == readOnly
    {
      this.total, this.canEmpty, this.overlay, this.backing := total, canEmpty, overlay, backing;
      isOpen, hasBacking, keepReadOnly, backingReadOnly := true, true, false, readOnly;
    }

    /** Copies one allocated run to the backing file. */
    method CopyRun(sector: nat, n: nat, faults: Faults) returns (ret: int)
      requires forall i | sector <= i < sector + n :: i in overlay
      modifies this`backing
      ensures |backing| == |old(backing)|
      ensures forall i | 0 <= i < |backing| && !(sector <= i < sector + n) :: backing[i] == old(backing[i])
      ensures ret == 0 || ret == -EIO
      ensures ret == 0 <==> Copyable(faults, sector, n, |backing|)
      ensures ret == 0 ==> forall i | sector <= i < sector + n :: Backed(backing, i) == overlay[i]
    {
      if Meets(faults.unreadable, sector, n) { return -EIO; }
      var buf := RunOf(overlay, sector, n);
      if sector + n > |backing| { return -EIO; }
      if Meets(faults.unwritable, sector, n) {
        backing := Damaged(backing, sector, n, faults.junk);
        return -EIO;
      }
      backing := backing[..sector] + buf + backing[sector + n..];
      return 0;
    }

    /** The copy loop.  It leaves what the guest sees alone, wherever it stops. */
    method CopyAll(faults: Faults) returns (ret: int)
      modifies this`backing
      ensures |backing| == |old(backing)|
      ensures forall i: nat :: Visible(overlay, backing, i) == Visible(overlay, old(backing), i)
      ensures forall i | 0 <= i < |backing| && i !in overlay :: backing[i] == old(backing[i])
      ensures ret == 0 || ret == -EIO
      ensures ret == 0 ==> forall i | 0 <= i < total :: Backed(backing, i) == Visible(overlay, old(backing), i)
      ensures ret == 0 <==> CanCopy(faults, total, overlay, |backing|)
    {
      ret := 0;
      var sector := 0;
      while sector < total
        invariant 0 <= sector <= total && |backing| == |old(backing)|
        invariant forall i | 0 <= i < |backing| && i !in overlay :: backing[i] == old(backing[i])
        invariant forall i | 0 <= i < sector :: Backed(backing, i) == Visible(overlay, old(backing), i)
        invariant ret == 0 && CanCopy(faults, sector, overlay, |backing|)
        decreases total - sector
      {
        var present, n := IsAllocated(sector, COMMIT_BUF_SECTORS);
        if present {
          ret := CopyRun(sector, n, faults);
          if ret != 0 {
            assert !Copyable(faults, sector, n, |backing|) && sector + n - 1 in overlay;
            return;
          }
        }
        sector := sector + n;
      }
    }

    /**
     bdrv_commit.  As long as the device stays open the guest sees what it saw
     before; once the copy loop has finished, the backing file alone holds it.
     `copied` tells whether the loop finished, which it does exactly when it is
     reached and every allocated sector can be copied.
     */
    method Commit(out: Outside) returns (ret: int, ghost copied: bool)
      modifies this
      ensures isOpen ==> forall i | 0 <= i < total :: Visible(overlay, backing, i) == old(Visible(overlay, backing, i))
      ensures copied ==> forall i | 0 <= i < total :: Backed(backing, i) == old(Visible(overlay, backing, i))
      ensures copied <==> old(isOpen && hasBacking && !keepReadOnly) && (old(backingReadOnly) ==> out.rwRet >= 0)
                          && old(CanCopy(out.faults, total, overlay, |backing|))
      ensures !copied ==> overlay == old(overlay)
      ensures |backing| == |old(backing)| && forall i | 0 <= i < |backing| && i !in old(overlay) :: backing[i] == old(backing[i])
      // every exit
      ensures !old(isOpen) ==> ret == -ENOMEDIUM && !isOpen && !copied
      ensures old(isOpen) && !old(hasBacking) ==> ret == -ENOTSUP && isOpen && !copied
      ensures old(isOpen && hasBacking && keepReadOnly) ==> ret == -EACCES && isOpen && !copied
      ensures old(isOpen && hasBacking && !keepReadOnly && backingReadOnly) && out.rwRet < 0 ==>
                && !copied && ret == (if out.fallbackRet < 0 then out.fallbackRet else out.rwRet)
                && (isOpen <==> out.fallbackRet >= 0)
      // a read-only backing file: whatever happened, the result is that of the last reopening
      ensures old(isOpen && hasBacking && !keepReadOnly && backingReadOnly) && out.rwRet >= 0 ==>
                ret == out.roRet && (isOpen <==> out.roRet >= 0)
      ensures old(isOpen && hasBacking && !keepReadOnly && !backingReadOnly) ==>
                && isOpen && hasBacking
                && ret == (if !copied then -EIO else if canEmpty then out.emptyRet else 0)
      ensures copied && canEmpty && out.emptyRet >= 0 ==> overlay == map[]
      ensures isOpen ==> (hasBacking <==> old(hasBacking))
      ensures !old(isOpen && hasBacking && !keepReadOnly) || (old(backingReadOnly) && out.rwRet < 0) ==> backing == old(backing)
      // the flags of the backing file, which is kept read-only for ever once a reopening for writing has failed
      ensures isOpen ==> backingReadOnly == old(backingReadOnly)
      ensures isOpen ==> (keepReadOnly <==> old(keepReadOnly) || (old(hasBacking && backingReadOnly) && out.rwRet < 0))
      // success reported although the copy failed
      ensures ret >= 0 && !copied <==>
                && old(isOpen && hasBacking && !keepReadOnly && backingReadOnly) && out.rwRet >= 0 && out.roRet >= 0
                && !old(CanCopy(out.faults, total, overlay, |backing|))
    {
      copied := false;
      if !isOpen { return -ENOMEDIUM, false; }
      if !hasBacking { return -ENOTSUP, false; }
      if keepReadOnly { return -EACCES, false; }
      var ro := backingReadOnly;
      if ro {
        hasBacking := false;
        if out.rwRet < 0 {
          if out.fallbackRet < 0 {
            isOpen := false;
            return out.fallbackRet, false;
          }
          hasBacking, backingReadOnly, keepReadOnly := true, true, true;
          return out.rwRet, false;
        }
        hasBacking, backingReadOnly, keepReadOnly := true, false, false;
      }
      ret := CopyAll(out.faults);
      copied := ret == 0;
      assert overlay == old(overlay);
      if ret == 0 && canEmpty {
        ret := out.emptyRet;
        overlay := if ret >= 0 then map[] else map i | i in overlay && i in out.kept :: overlay[i];
      }
      if ro {
        hasBacking := false;
        ret := out.roRet;
        if ret < 0 {
          isOpen := false;
          return ret, copied;
        }
        hasBacking, backingReadOnly, keepReadOnly := true, true, false;
      }
    }
  }

  /**
   Once reopening a read-only backing file for writing has failed, and the file
   is open as before, no later commit gets any further, whatever would then be
   possible.
   */
  method CommitAfterFailedReopen(image: Overlay, first: Outside, later: Outside) returns (ret: int, again: int)
    requires image.isOpen && image.hasBacking && image.backingReadOnly && !image.keepReadOnly
    requires first.rwRet < 0 && first.fallbackRet >= 0
    modifies image
    ensures ret == first.rwRet && again == -EACCES
    ensures image.isOpen && image.keepReadOnly && image.overlay == old(image.overlay) && image.backing == old(image.backing)
  {
    ghost var copied;
    ret, copied := image.Commit(first);
    again, copied := image.Commit(later);
  }

  /**
   One allocated sector that cannot be read, over a read-only backing file:
   commit reports success, and the overlay still holds what was to be committed.
   */
  method FailedCopyReportsSuccess(a: Sector, b: Sector) returns (ret: int, left: map<nat, Sector>)
    ensures ret == 0 && left == map[0 := a]
  {
    var image := new Overlay(1, true, true, map[0 := a], [b]);
    ghost var copied;
    ret, copied := image.Commit(Outside(0, 0, 0, Faults({0}, {}, []), 0, {}));
    left := image.overlay;
  }
}
