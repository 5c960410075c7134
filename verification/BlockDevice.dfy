/**
 Sector I/O on a block device and byte I/O on top of it: bdrv_read, bdrv_write,
 bdrv_pread and bdrv_pwrite, with the dirty bitmap kept on the way.
 */
module BlockDevice {
  import opened Basics
  import opened Bits
  import opened DirtyBitmap

  /** The contents with `buf` written at byte `off`. */
  function Overlay(d: seq<Byte>, off: nat, buf: seq<Byte>): seq<Byte>
    requires off + |buf| <= |d|
  {
    d[..off] + buf + d[off + |buf|..]
  }

  /** The whole-sector range around the bytes off .. off + n. */
  function RoundDown(off: int): int { off - off % SECTOR }
  function RoundUp(off: int): int { off + (-off) % SECTOR }

  /** The chunk that holds a byte. */
  function ByteChunk(b: int): int { b / (SECTOR * CHUNK) }

  /** The words that the bitmap over so many sectors is used as; an empty device still uses the first one. */
  function WordsFor(sectors: nat): nat { if sectors == 0 then 1 else (sectors + 64 * CHUNK - 1) / (64 * CHUNK) }

  /** The bytes allocated for it; qemu_mallocz gives one byte for none. */
  function BitmapBytes(sectors: nat): nat { if sectors == 0 then 1 else (sectors + 8 * CHUNK - 1) / (8 * CHUNK) }

  /** The byte up to which a write of n bytes at a sector marks; an empty write at sector 0 rounds -1 towards zero. */
  function LastMarked(sector: int, n: nat): int {
    if sector == 0 && n == 0 then 0 else SECTOR * sector + n - 1
  }

  class Device {
    var isOpen: bool           // drv != NULL
    const readOnly: bool
    const faulty: bool         // whether driver calls may fail
    const data: array<Byte>
    var bitmap: array?<Word64>
    var dirtyCount: int

    ghost predicate Valid()
      reads this
    {
      && data.Length % SECTOR == 0
      && (bitmap != null ==> bitmap.Length == WordsFor(data.Length / SECTOR))
    }

    ghost function Tracking(): Tracked
      requires bitmap != null
      reads this, bitmap
    {
      Tracked(bitmap[..], dirtyCount)
    }

    ghost predicate CountRight()
      reads this, bitmap
    {
      bitmap != null ==> dirtyCount == CountBits(bitmap[..])
    }

    // ----- the driver

    /** Reads whole sectors; only a faulty driver may fail. */
    method DriverRead(sector: nat, nb: nat) returns (ret: int, buf: seq<Byte>)
      requires SECTOR * (sector + nb) <= data.Length
      ensures ret >= 0 ==> buf == data[SECTOR * sector..SECTOR * (sector + nb)]
      ensures ret < 0 ==> faulty
    {
      buf := data[SECTOR * sector..SECTOR * (sector + nb)];
      ret := 0;
      var fails: bool := *;
      if faulty && fails {
        ret :| ret < 0;
      }
    }

    /** Writes whole sectors; a write that fails may leave anything in the sectors it names. */
    method DriverWrite(sector: nat, buf: seq<Byte>) returns (ret: int)
      requires |buf| % SECTOR == 0 && SECTOR * sector + |buf| <= data.Length
      modifies data
      ensures ret >= 0 ==> data[..] == Overlay(old(data[..]), SECTOR * sector, buf)
      ensures forall j | 0 <= j < data.Length && !(SECTOR * sector <= j < SECTOR * sector + |buf|) :: data[j] == old(data[j])
      ensures ret < 0 ==> faulty
    {
      ret := 0;
      var fails: bool := *;
      if faulty && fails {
        ret :| ret < 0;
      }
      var i := 0;
      while i < |buf|
        invariant 0 <= i <= |buf|
        invariant forall j | 0 <= j < data.Length && !(SECTOR * sector <= j < SECTOR * sector + i) :: data[j] == old(data[j])
        invariant ret >= 0 ==> forall j | 0 <= j < i :: data[SECTOR * sector + j] == buf[j]
      {
        if ret >= 0 {
          data[SECTOR * sector + i] := buf[i];
        } else {
          data[SECTOR * sector + i] := *;
        }
        i := i + 1;
      }
    }

    // ----- sectors

    /** bdrv_check_request on a device that cannot grow. */
    predicate Accepts(sector: int, nb: nat) {
      var offset, len := sector * SECTOR, data.Length;
      offset >= 0 && offset <= len && len - offset >= nb * SECTOR
    }

    /** bdrv_read */
    method Read(sector: int, nb: nat) returns (ret: int, buf: seq<Byte>)
      ensures ret >= 0 ==> isOpen && Accepts(sector, nb) && buf == data[SECTOR * sector..SECTOR * (sector + nb)]
      ensures isOpen && Accepts(sector, nb) && !faulty ==> ret >= 0
      ensures !isOpen ==> ret == -ENOMEDIUM
      ensures isOpen && !(0 <= sector && SECTOR * (sector + nb) <= data.Length) ==> ret == -EIO
    {
      buf := [];
      if !isOpen { return -ENOMEDIUM, buf; }
      if !Accepts(sector, nb) { return -EIO, buf; }
      ret, buf := DriverRead(sector, nb);
    }

    /** set_dirty_bitmap */
    method SetDirtyBitmap(sector: nat, nb: nat, dirty: bool)
      requires bitmap != null && CDiv(sector + nb - 1, CHUNK) < 64 * bitmap.Length
      modifies bitmap, this`dirtyCount
      ensures Tracking() == PutRange(old(Tracking()), sector / CHUNK, CDiv(sector + nb - 1, CHUNK), dirty)
    {
      hide PutBit, Bit;
      ghost var t := Tracking();
      var start := sector / CHUNK;
      var end := CDiv(sector + nb - 1, CHUNK);
      ghost var first := start;
      while start <= end
        invariant start >= 0
        invariant PutRange(t, first, end, dirty) == PutRange(Tracking(), start, end, dirty)
        decreases end + 1 - start
      {
        var idx, bit := start / 64, start % 64;
        var val := bitmap[idx];
        ghost var now := Tracking();
        if dirty {
          if !Bit(val, bit) {
            dirtyCount := dirtyCount + 1;
            val := PutBit(val, bit, true);
          }
        } else {
          if Bit(val, bit) {
            dirtyCount := dirtyCount - 1;
            val := PutBit(val, bit, false);
          }
        }
        PutBitTwice(bitmap[idx], bit);
        bitmap[idx] := val;
        assert bitmap[..] == PutChunk(now.words, start, dirty);
        start := start + 1;
      }
    }

    /** The chunks over the bytes lo .. hi are marked, and the count is as right as it was. */
    twostate predicate Marks(ret: int, lo: int, hi: int)
      reads this, bitmap
    {
      && bitmap == old(bitmap)
      && (bitmap != null ==>
            && (old(CountRight()) ==> CountRight())
            && MarkedWithin(old(bitmap[..]), bitmap[..], ByteChunk(lo), ByteChunk(hi))
            && (ret >= 0 ==> Marked(old(bitmap[..]), bitmap[..], ByteChunk(lo), ByteChunk(hi))))
    }

    /**
     bdrv_write.  The chunks are marked before the driver is called; an empty
     write may mark one, too.
     */
    method Write(sector: int, buf: seq<Byte>) returns (ret: int)
      requires Valid() && |buf| % SECTOR == 0
      modifies data, bitmap, this`dirtyCount
      ensures Valid()
      ensures ret >= 0 ==> isOpen && !readOnly && Accepts(sector, |buf| / SECTOR)
                           && data[..] == Overlay(old(data[..]), SECTOR * sector, buf)
      ensures isOpen && !readOnly && Accepts(sector, |buf| / SECTOR) && !faulty ==> ret >= 0
      ensures !isOpen ==> ret == -ENOMEDIUM
      ensures isOpen && readOnly ==> ret == -EACCES
      ensures isOpen && !readOnly && !(0 <= sector && SECTOR * sector + |buf| <= data.Length) ==> ret == -EIO
      ensures ret < 0 && !faulty ==> data[..] == old(data[..]) && Words() == old(Words()) && dirtyCount == old(dirtyCount)
      ensures forall j | 0 <= j < data.Length && !(SECTOR * sector <= j < SECTOR * sector + |buf|) :: data[j] == old(data[j])
      ensures Marks(ret, SECTOR * sector, LastMarked(sector, |buf|))
    {
      hide PutRange, BitAt, CountBits, WordsFor, LastMarked;
      if !isOpen { return -ENOMEDIUM; }
      if readOnly { return -EACCES; }
      if !Accepts(sector, |buf| / SECTOR) { return -EIO; }
      var nb := |buf| / SECTOR;
      if bitmap != null {
        ChunksOfWrite(data.Length, sector, nb);
        RangeMarks(Tracking(), sector / CHUNK, CDiv(sector + nb - 1, CHUNK));
        SetDirtyBitmap(sector, nb, true);
      }
      ret := DriverWrite(sector, buf);
    }

    // ----- bytes

    /** The sectors around the bytes off .. off + n all lie on the device. */
    predicate Holds(offset: int, n: nat) {
      0 <= offset && RoundUp(offset + n) <= data.Length
    }

    /** Reads one sector into a bounce buffer and takes n bytes of it. */
    method ReadWithin(sector: int, from: nat, n: nat) returns (ret: int, bytes: seq<Byte>)
      requires from + n <= SECTOR
      ensures ret >= 0 ==> isOpen && 0 <= sector && SECTOR * (sector + 1) <= data.Length
                           && bytes == data[SECTOR * sector + from..SECTOR * sector + from + n]
      ensures isOpen && 0 <= sector && SECTOR * (sector + 1) <= data.Length && !faulty ==> ret >= 0
      ensures !isOpen ==> ret == -ENOMEDIUM
      ensures isOpen && !(0 <= sector && SECTOR * (sector + 1) <= data.Length) ==> ret == -EIO
    {
      var tmp;
      ret, tmp := Read(sector, 1);
      bytes := [];
      if ret >= 0 {
        bytes := tmp[from..from + n];
        assert bytes == data[SECTOR * sector + from..SECTOR * sector + from + n];
      }
    }

    /** The part of a read from a sector boundary on: whole sectors in place, then a bounced tail. */
    method ReadAligned(sector: int, count: nat) returns (ret: int, buf: seq<Byte>)
      requires count > 0
      ensures ret >= 0 ==> isOpen && Holds(SECTOR * sector, count)
                           && buf == data[SECTOR * sector..SECTOR * sector + count]
      ensures isOpen && Holds(SECTOR * sector, count) && !faulty ==> ret >= 0
      ensures !isOpen ==> ret == -ENOMEDIUM
      ensures isOpen && !Holds(SECTOR * sector, count) && !faulty ==> ret == -EIO
    {
      hide Holds;
      HeldAligned(this, sector, count);
      var nb, left := count / SECTOR, count;
      buf := [];
      ret := 0;
      if nb > 0 {
        ret, buf := Read(sector, nb);
        if ret < 0 { return; }
        left := left - nb * SECTOR;
      }
      if left > 0 {
        var part;
        ret, part := ReadWithin(sector + nb, 0, left);
        if ret < 0 { return; }
        Joined(data[..], SECTOR * sector, SECTOR * (sector + nb), SECTOR * sector + count);
        buf := buf + part;
      }
    }

    /**
     bdrv_pread.  Without driver faults it succeeds exactly when the surrounding
     sectors exist, and then returns exactly the bytes asked for.
     */
    method Pread(offset: int, count1: nat) returns (ret: int, buf: seq<Byte>)
      ensures count1 == 0 ==> ret == 0 && buf == []
      ensures ret >= 0 && count1 > 0 ==> isOpen && Holds(offset, count1)
      ensures ret >= 0 && count1 > 0 ==> ret == count1 && buf == data[offset..offset + count1]
      ensures isOpen && Holds(offset, count1) && !faulty ==> ret >= 0
      ensures count1 > 0 && !isOpen ==> ret == -ENOMEDIUM
      ensures count1 > 0 && isOpen && !Holds(offset, count1) && !faulty ==> ret == -EIO
    {
      var count := count1;
      var len := (SECTOR - offset) % SECTOR;
      if len > count { len := count; }
      var sector := offset / SECTOR;
      buf := [];
      Pieces(offset, count1);
      if len > 0 {
        ret, buf := ReadWithin(sector, offset % SECTOR, len);
        if ret < 0 { return; }
        count := count - len;
        if count == 0 { return count1, buf; }
        sector := sector + 1;
      }
      if count > 0 {
        var rest;
        ret, rest := ReadAligned(sector, count);
        if ret < 0 { return; }
        Joined(data[..], offset, offset + len, offset + count1);
        buf := buf + rest;
      }
      return count1, buf;
    }

    /** Reads one sector, changes some of its bytes, and writes it back. */
    method WriteWithin(sector: int, from: nat, bytes: seq<Byte>) returns (ret: int)
      requires Valid() && 0 < |bytes| && from + |bytes| <= SECTOR
      modifies data, bitmap, this`dirtyCount
      ensures Valid()
      ensures ret >= 0 ==> isOpen && !readOnly && 0 <= sector && SECTOR * (sector + 1) <= data.Length
                           && data[..] == Overlay(old(data[..]), SECTOR * sector + from, bytes)
      ensures isOpen && !readOnly && 0 <= sector && SECTOR * (sector + 1) <= data.Length && !faulty ==> ret >= 0
      ensures !isOpen ==> ret == -ENOMEDIUM
      ensures isOpen && !(0 <= sector && SECTOR * (sector + 1) <= data.Length) ==> ret == -EIO
      ensures isOpen && readOnly && 0 <= sector && SECTOR * (sector + 1) <= data.Length && !faulty ==> ret == -EACCES
      ensures forall j | 0 <= j < data.Length && !(SECTOR * sector <= j < SECTOR * (sector + 1)) :: data[j] == old(data[j])
      ensures Marks(ret, SECTOR * sector + from, SECTOR * sector + from + |bytes| - 1)
    {
      hide BitAt, CountBits, WordsFor, Marked, MarkedWithin, ByteChunk, Overlay;
      var tmp;
      ret, tmp := Read(sector, 1);
      if ret < 0 {
        NothingMarked(Words(), ByteChunk(SECTOR * sector + from), ByteChunk(SECTOR * sector + from + |bytes| - 1));
        return;
      }
      var changed := Overlay(tmp, from, bytes);
      OverlayWithin(data[..], SECTOR * sector, from, bytes);
      SameChunk(sector, from, |bytes|);
      ret := Write(sector, changed);
    }

    ghost function Words(): seq<Word64>
      reads this, bitmap
    {
      if bitmap == null then [] else bitmap[..]
    }

    /** The part of a write from a sector boundary on: whole sectors in place, then a bounced tail. */
    method WriteAligned(sector: int, buf: seq<Byte>) returns (ret: int)
      requires Valid() && |buf| > 0
      modifies data, bitmap, this`dirtyCount
      ensures Valid()
      ensures ret >= 0 ==> isOpen && !readOnly && Holds(SECTOR * sector, |buf|)
                           && data[..] == Overlay(old(data[..]), SECTOR * sector, buf)
      ensures isOpen && !readOnly && Holds(SECTOR * sector, |buf|) && !faulty ==> ret >= 0
      ensures !isOpen ==> ret == -ENOMEDIUM
      ensures isOpen && !readOnly && !Holds(SECTOR * sector, |buf|) && !faulty ==> ret == -EIO
      ensures isOpen && readOnly && Holds(SECTOR * sector, |buf|) && !faulty ==> ret == -EACCES
      ensures forall j | 0 <= j < data.Length && !(SECTOR * sector <= j < RoundUp(SECTOR * sector + |buf|)) :: data[j] == old(data[j])
      ensures Marks(ret, SECTOR * sector, SECTOR * sector + |buf| - 1)
    {
      hide BitAt, CountBits, WordsFor, Marked, MarkedWithin, ByteChunk, Overlay, Holds, RoundUp;
      HeldAligned(this, sector, |buf|);
      var nb := |buf| / SECTOR;
      var mid := nb * SECTOR;
      ghost var at := SECTOR * sector;
      if nb == 0 {
        ret := WriteWithin(sector, 0, buf);
      } else {
        ghost var w0 := Words();
        ret := Write(sector, buf[..mid]);
        ghost var w1 := Words();
        ChunksInOrder(at, at + mid, at + |buf| - 1);
        WithinGrows(w0, w1, ByteChunk(at), ByteChunk(at + mid - 1), ByteChunk(at + |buf| - 1));
        if ret >= 0 && mid < |buf| {
          ghost var d1 := data[..];
          ret := WriteWithin(sector + nb, 0, buf[mid..]);
          if bitmap != null {
            MarkedChains(w0, w1, Words(), ByteChunk(at), ByteChunk(at + mid - 1), ByteChunk(at + mid), ByteChunk(at + |buf| - 1));
          }
          if ret >= 0 {
            OverlayJoined(old(data[..]), at, buf, mid);
          }
        } else if ret >= 0 {
          assert buf[..mid] == buf;
        }
      }
    }

    /**
     bdrv_pwrite.  Without driver faults it succeeds exactly on a writable
     device whose sectors around the range exist; it then changes exactly the
     addressed bytes and marks exactly their chunks.  If it fails, bytes outside
     the surrounding sectors are as before.
     */
    method Pwrite(offset: int, buf: seq<Byte>) returns (ret: int)
      requires Valid()
      modifies data, bitmap, this`dirtyCount
      ensures Valid()
      ensures buf == [] ==> ret == 0 && data[..] == old(data[..]) && bitmap == old(bitmap) && Words() == old(Words())
      ensures ret >= 0 && buf != [] ==> isOpen && !readOnly && Holds(offset, |buf|)
      ensures ret >= 0 && buf != [] ==> ret == |buf| && data[..] == Overlay(old(data[..]), offset, buf)
      ensures isOpen && !readOnly && Holds(offset, |buf|) && !faulty ==> ret >= 0
      ensures buf != [] && !isOpen ==> ret == -ENOMEDIUM
      ensures buf != [] && isOpen && !readOnly && !Holds(offset, |buf|) && !faulty ==> ret == -EIO
      ensures buf != [] && isOpen && readOnly && Holds(offset, |buf|) && !faulty ==> ret == -EACCES
      ensures forall j | 0 <= j < data.Length && !(RoundDown(offset) <= j < RoundUp(offset + |buf|)) :: data[j] == old(data[j])
      ensures buf != [] ==> Marks(ret, offset, offset + |buf| - 1)
    {
      hide BitAt, CountBits, WordsFor, Marked, MarkedWithin, ByteChunk, Overlay, Holds, RoundUp, RoundDown;
      var len := (SECTOR - offset) % SECTOR;
      if len > |buf| { len := |buf|; }
      var sector := offset / SECTOR;
      Pieces(offset, |buf|);
      HeldPieces(this, offset, |buf|);
      if buf == [] { return 0; }
      if len == 0 {
        ret := WriteAligned(sector, buf);
      } else {
        ghost var w0 := Words();
        ret := WriteWithin(sector, offset % SECTOR, buf[..len]);
        ghost var w1 := Words();
        ChunksInOrder(offset, offset + len, offset + |buf| - 1);
        WithinGrows(w0, w1, ByteChunk(offset), ByteChunk(offset + len - 1), ByteChunk(offset + |buf| - 1));
        if ret >= 0 && len < |buf| {
          ret := WriteAligned(sector + 1, buf[len..]);
          if bitmap != null {
            MarkedChains(w0, w1, Words(), ByteChunk(offset), ByteChunk(offset + len - 1), ByteChunk(offset + len), ByteChunk(offset + |buf| - 1));
          }
          if ret >= 0 {
            OverlayJoined(old(data[..]), offset, buf, len);
          }
        } else if ret >= 0 {
          assert buf[..len] == buf;
        }
      }
      if ret >= 0 { ret := |buf|; }
    }

    /** A read after a write finds the new bytes inside the range that was written, the old ones outside. */
    method WriteThenRead(offset: int, buf: seq<Byte>, at: int, n: nat) returns (written: int, ret: int, got: seq<Byte>)
      requires Valid()
      modifies data, bitmap, this`dirtyCount
      ensures Valid()
      ensures written >= 0 && ret >= 0 ==>
                && |got| == n && (n > 0 ==> 0 <= at && at + n <= data.Length)
                && forall j | 0 <= j < n ::
                     got[j] == if offset <= at + j < offset + |buf| then buf[at + j - offset] else old(data[at + j])
      ensures isOpen && !readOnly && !faulty && Holds(offset, |buf|) && Holds(at, n) ==> written >= 0 && ret >= 0
    {
      hide Marks, RoundUp, RoundDown;
      written := Pwrite(offset, buf);
      ret, got := Pread(at, n);
      if written >= 0 && ret >= 0 && n > 0 {
        HeldIsInside(data.Length, at, n);
        HeldIsInside(data.Length, offset, |buf|);
        assert forall j | 0 <= j < n :: got[j] == data[..][at + j];
        assert buf == [] ==> forall j | 0 <= j < data.Length :: data[..][j] == old(data[..])[j];
      }
    }

    // ----- dirty tracking

    /**
     bdrv_set_dirty_tracking.  The count is right afterwards unless tracking
     was already on with some chunk marked.
     */
    method SetDirtyTracking(enable: bool)
      requires Valid()
      modifies this`bitmap, this`dirtyCount
      ensures Valid() && (bitmap != null <==> enable) && dirtyCount == 0
      ensures enable ==> Tracking() == Enabled(old(Words()), old(bitmap != null), WordsFor(data.Length / SECTOR))
      ensures enable ==> forall c: nat :: BitAt(bitmap[..], c) <==> old(bitmap != null) && BitAt(old(Words()), c)
      ensures CountRight() <==> !enable || old(bitmap == null) || forall c: nat :: !BitAt(old(Words()), c)
    {
      hide BitAt, CountBits, WordsFor;
      dirtyCount := 0;
      if enable {
        if bitmap == null {
          var words := WordsFor(data.Length / SECTOR);
          bitmap := new Word64[words](_ => 0);
          assert bitmap[..] == ZeroWords(words);
          NoBits(words);
        } else {
          ReenablingKeepsCountIffClean(bitmap[..], bitmap.Length);
        }
      } else {
        bitmap := null;
      }
    }

    /** bdrv_get_dirty */
    method GetDirty(sector: nat) returns (dirty: bool)
      requires Valid()
      ensures dirty <==> bitmap != null && sector * SECTOR < data.Length && BitAt(bitmap[..], sector / CHUNK)
    {
      hide Bit;
      var chunk := sector / CHUNK;
      if bitmap != null && sector * SECTOR < data.Length {
        RequestInBitmap(data.Length, sector, 1);
        dirty := Bit(bitmap[chunk / 64], chunk % 64);
      } else {
        dirty := false;
      }
    }

    /** bdrv_reset_dirty */
    method ResetDirty(sector: nat, nb: nat)
      requires Valid() && bitmap != null && nb > 0 && sector * SECTOR + nb * SECTOR <= data.Length
      modifies bitmap, this`dirtyCount
      ensures InBitmap(bitmap.Length, Reset(sector, nb)) && Tracking() == Track(old(Tracking()), Reset(sector, nb))
      ensures forall c: nat :: BitAt(bitmap[..], c) <==> old(BitAt(bitmap[..], c)) && !Touches(sector, nb, c)
      ensures old(CountRight()) ==> CountRight()
    {
      hide BitAt, CountBits, WordsFor, PutRange, Touches;
      RequestInBitmap(data.Length, sector, nb);
      ghost var op := Reset(sector, nb);
      RangeIsPut(Tracking(), FirstChunk(op), LastChunk(op), false);
      forall c: nat ensures Touches(sector, nb, c) <==> FirstChunk(op) <= c <= LastChunk(op) {
        TouchedChunks(op, c);
      }
      SetDirtyBitmap(sector, nb, false);
    }
  }

  /** On a device of whole sectors a byte range has its sectors exactly if it lies inside. */
  lemma HoldsIff(x: Device, offset: int, n: nat)
    requires x.Valid()
    ensures x.Holds(offset, n) <==> 0 <= offset && offset + n <= x.data.Length
  {}

  /** Whether the pieces lie on the device. */
  lemma HeldPieces(x: Device, offset: int, count: nat)
    requires x.Valid()
    ensures var gap := (SECTOR - offset) % SECTOR;
            var head := if gap > count then count else gap;
            var first := offset / SECTOR;
            && RoundDown(offset) == SECTOR * first && SECTOR * first <= offset
            && (head == count > 0 ==> RoundUp(offset + count) == SECTOR * (first + 1))
            && (head < count ==> SECTOR * (first + 1) <= RoundUp(offset + count))
            && (head == count > 0 ==> (x.Holds(offset, count) <==> 0 <= first && SECTOR * (first + 1) <= x.data.Length))
            && (0 < head < count ==> (x.Holds(offset, count) <==> 0 <= first && x.Holds(SECTOR * (first + 1), count - head)))
            && (x.Holds(offset, count) ==> 0 <= offset && offset + count <= x.data.Length)
            && (0 < head < count && 0 <= first && x.Holds(SECTOR * (first + 1), count - head) ==> SECTOR * (first + 1) <= x.data.Length)
  {}

  /** The same for a range from a sector boundary on: whole sectors, then the rest of one. */
  lemma HeldAligned(x: Device, sector: int, count: nat)
    ensures var nb := count / SECTOR;
            && (count % SECTOR == 0 ==> (x.Holds(SECTOR * sector, count) <==> 0 <= sector && SECTOR * (sector + nb) <= x.data.Length))
            && (count % SECTOR != 0 ==> (x.Holds(SECTOR * sector, count) <==> 0 <= sector && SECTOR * (sector + nb + 1) <= x.data.Length))
            && RoundUp(SECTOR * sector + count) == SECTOR * (sector + nb + if count % SECTOR == 0 then 0 else 1)
            && count == SECTOR * nb + count % SECTOR
  {}

  /** The sector boundaries next to an offset. */
  lemma RoundsAround(off: int)
    ensures RoundDown(off) % SECTOR == 0 && RoundUp(off) % SECTOR == 0
    ensures off - SECTOR < RoundDown(off) <= off <= RoundUp(off) < off + SECTOR
  {
    SectorMultiple(off / SECTOR);
    SectorMultiple(-((-off) / SECTOR));
    assert RoundDown(off) == SECTOR * (off / SECTOR) && RoundUp(off) == SECTOR * -((-off) / SECTOR);
  }

  lemma SectorMultiple(k: int)
    ensures SECTOR * k % SECTOR == 0
  {}

  lemma HeldIsInside(len: nat, offset: int, n: nat)
    ensures 0 <= offset && RoundUp(offset + n) <= len ==> offset + n <= len
  {}

  lemma OverlayJoined(d: seq<Byte>, at: nat, buf: seq<Byte>, mid: nat)
    requires at + |buf| <= |d| && mid <= |buf|
    ensures Overlay(Overlay(d, at, buf[..mid]), at + mid, buf[mid..]) == Overlay(d, at, buf)
  {}

  lemma ChunksInOrder(lo: int, mid: int, hi: int)
    requires lo < mid
    ensures ByteChunk(lo) <= ByteChunk(mid - 1) <= ByteChunk(mid) <= ByteChunk(mid - 1) + 1
    ensures mid - 1 <= hi ==> ByteChunk(mid - 1) <= ByteChunk(hi)
  {}

  lemma WithinGrows(a: seq<Word64>, b: seq<Word64>, lo: int, mid: int, hi: int)
    requires mid <= hi
    ensures MarkedWithin(a, b, lo, mid) ==> MarkedWithin(a, b, lo, hi)
  {
    hide BitAt;
  }

  lemma Joined(d: seq<Byte>, a: nat, b: nat, c: nat)
    requires a <= b <= c <= |d|
    ensures d[a..b] + d[b..c] == d[a..c]
  {}

  /** How a byte request falls into a head up to a sector boundary and an aligned rest. */
  lemma Pieces(offset: int, count: nat)
    ensures var gap := (SECTOR - offset) % SECTOR;
            var head := if gap > count then count else gap;
            var first := offset / SECTOR;
            && offset == SECTOR * first + offset % SECTOR && offset % SECTOR + head <= SECTOR
            && (head == 0 && count > 0 ==> offset == SECTOR * first)
            && (0 < head < count ==> offset + head == SECTOR * (first + 1))
            && (head == count > 0 ==> RoundUp(offset + count) == SECTOR * (first + 1))
  {}

  lemma PutBitTwice(w: Word64, k: nat)
    requires k < 64
    ensures Bit(w, k) ==> PutBit(w, k, true) == w
    ensures !Bit(w, k) ==> PutBit(w, k, false) == w
  {
    PopCountOfSetBit(w, k);
    PopCountOfClearBit(w, k);
  }

  lemma RequestInBitmap(len: nat, sector: nat, nb: nat)
    requires nb > 0 && sector * SECTOR + nb * SECTOR <= len
    ensures InBitmap(WordsFor(len / SECTOR), Wrote(sector, nb))
  {
    var last := sector + nb - 1;
    assert last < len / SECTOR;
    assert last / CHUNK < 64 * WordsFor(len / SECTOR);
  }

  /** The chunks a write marks are those of its bytes, and they have bits. */
  lemma ChunksOfWrite(len: nat, sector: nat, nb: nat)
    requires sector * SECTOR + nb * SECTOR <= len && len % SECTOR == 0
    ensures CDiv(sector + nb - 1, CHUNK) < 64 * WordsFor(len / SECTOR)
    ensures ByteChunk(SECTOR * sector) == sector / CHUNK
    ensures ByteChunk(LastMarked(sector, nb * SECTOR)) == CDiv(sector + nb - 1, CHUNK)
  {
    var last := sector + nb - 1;
    if last < 0 {
      assert CDiv(-1, CHUNK) == 0;
    } else {
      assert last < len / SECTOR;
      assert last / CHUNK < 64 * WordsFor(len / SECTOR);
    }
  }

  /** An empty write marks the chunk of its sector, unless that sector begins a chunk other than the first. */
  lemma EmptyWriteMarksIff(sector: nat, c: nat)
    ensures ByteChunk(SECTOR * sector) <= c <= ByteChunk(LastMarked(sector, 0))
       <==> c == sector / CHUNK && (sector == 0 || sector % CHUNK != 0)
  {}

  /**
   The bitmap is allocated in bytes and read and written in whole words: all
   words of a device's chunks, and the first in any case, lie inside the
   allocation exactly when its size is a multiple of eight bytes, that is, when
   the last chunk is among the last eight of its word.  They always lie within
   the next seven bytes.
   */
  lemma WordsFitAllocationIff(sectors: nat)
    ensures (forall s: nat | s < sectors || s == 0 :: 8 * (s / CHUNK / 64) + 8 <= BitmapBytes(sectors))
       <==> BitmapBytes(sectors) % 8 == 0
    ensures BitmapBytes(sectors) % 8 == 0 <==> sectors > 0 && (sectors - 1) / CHUNK % 64 >= 56
    ensures WordsFor(sectors) == (BitmapBytes(sectors) + 7) / 8
    ensures forall s: nat | s < sectors || s == 0 :: 8 * (s / CHUNK / 64) + 8 <= BitmapBytes(sectors) + 7
  {
    if sectors > 0 {
      var last := (sectors - 1) / CHUNK;
      assert BitmapBytes(sectors) == last / 8 + 1;
      assert last / 64 == last / 8 / 8;
      forall s: nat | s < sectors || s == 0 ensures s / CHUNK / 64 <= last / 64 {}
      assert (sectors - 1) / CHUNK / 64 == last / 64;
    } else {
      assert 0 / CHUNK / 64 == 0;
      var s: nat := 0;
      assert s == 0 && !(8 * (s / CHUNK / 64) + 8 <= BitmapBytes(sectors));
    }
  }

  /** A device of one chunk: one byte is allocated, and eight are accessed. */
  lemma OneChunkOverruns()
    ensures BitmapBytes(CHUNK) == 1 && BitmapBytes(CHUNK) < 8 * (0 / CHUNK / 64) + 8
  {}

  lemma SameChunk(sector: nat, from: nat, n: nat)
    requires 0 < n && from + n <= SECTOR
    ensures ByteChunk(SECTOR * sector + from) == ByteChunk(SECTOR * sector + from + n - 1)
         == ByteChunk(SECTOR * sector) == ByteChunk(SECTOR * sector + SECTOR - 1)
  {}

  lemma OverlayWithin(d: seq<Byte>, at: nat, from: nat, bytes: seq<Byte>)
    requires at + SECTOR <= |d| && from + |bytes| <= SECTOR
    ensures |Overlay(d[at..at + SECTOR], from, bytes)| == SECTOR
    ensures Overlay(d, at, Overlay(d[at..at + SECTOR], from, bytes)) == Overlay(d, at + from, bytes)
  {}

  lemma NothingMarked(a: seq<Word64>, lo: int, hi: int)
    ensures MarkedWithin(a, a, lo, hi)
  {}
}
