/**
 QEMUIOVector: a growable list of byte segments with a cached total size.
 */
module IoVector {
  import opened Bits

  type Segment = seq<Byte>

  /** The bytes the segments stand for, in order. */
  function Flat(iov: seq<Segment>): seq<Byte> {
    if iov == [] then [] else Flat(iov[..|iov| - 1]) + iov[|iov| - 1]
  }

  function DropUpTo(s: seq<Byte>, n: nat): seq<Byte> { if n <= |s| then s[n..] else [] }
  function TakeUpTo(s: seq<Byte>, n: nat): seq<Byte> { if n <= |s| then s[..n] else s }

  lemma FlatAppends(iov: seq<Segment>, seg: Segment)
    ensures Flat(iov + [seg]) == Flat(iov) + seg
  {
    assert (iov + [seg])[..|iov|] == iov;
  }

  lemma {:induction false} FlatConcat(a: seq<Segment>, b: seq<Segment>)
    ensures Flat(a + b) == Flat(a) + Flat(b)
  {
    if b == [] {
      assert a + b == a;
    } else {
      var n := |b| - 1;
      FlatConcat(a, b[..n]);
      assert (a + b)[..|a| + n] == a + b[..n];
      assert (Flat(a) + Flat(b[..n])) + b[n] == Flat(a) + (Flat(b[..n]) + b[n]);
    }
  }

  /** What the copy loop has produced and skipped after some of the source. */
  lemma CopiedSoFar(src: seq<Byte>, seg: seq<Byte>, skip: nat, size: nat)
    ensures var taken := TakeUpTo(DropUpTo(src, skip), size);
            var left := if skip <= |src| then 0 else skip - |src|;
            TakeUpTo(DropUpTo(src + seg, skip), size) == taken + TakeUpTo(DropUpTo(seg, left), size - |taken|)
  {
    if skip <= |src| {
      assert (src + seg)[skip..] == src[skip..] + seg;
    } else if skip <= |src| + |seg| {
      assert (src + seg)[skip..] == seg[skip - |src|..];
    }
  }

  class Qiov {
    var iov: seq<Segment>
    var nalloc: int
    var size: nat

    ghost predicate Valid()
      reads this
    {
      (nalloc == -1 || |iov| <= nalloc) && size == |Flat(iov)|
    }

    /** qemu_iovec_init */
    constructor (hint: nat)
      ensures Valid() && iov == [] && nalloc == hint
    {
      iov, nalloc, size := [], hint, 0;
    }

    /** qemu_iovec_init_external */
    constructor External(segments: seq<Segment>)
      ensures Valid() && iov == segments && nalloc == -1
    {
      var total := 0;
      var i := 0;
      while i < |segments|
        invariant 0 <= i <= |segments|
        invariant total == |Flat(segments[..i])|
      {
        FlatAppends(segments[..i], segments[i]);
        assert segments[..i] + [segments[i]] == segments[..i + 1];
        total := total + |segments[i]|;
        i := i + 1;
      }
      assert segments[..i] == segments;
      iov, nalloc, size := segments, -1, total;
    }

    /** qemu_iovec_add */
    method Add(seg: Segment)
      requires Valid() && nalloc != -1
      modifies this
      ensures Valid() && nalloc != -1 && iov == old(iov) + [seg]
      ensures nalloc == if old(|iov|) == old(nalloc) then 2 * old(nalloc) + 1 else old(nalloc)
    {
      if |iov| == nalloc {
        nalloc := 2 * nalloc + 1;
      }
      FlatAppends(iov, seg);
      iov := iov + [seg];
      size := size + |seg|;
    }

    /**
     qemu_iovec_copy: appends the segments of `src` from byte `skip` on, at most
     `limit` bytes of them.
     */
    method Copy(src: Qiov, skip: nat, limit: nat)
      requires Valid() && src.Valid() && nalloc != -1 && src != this
      modifies this
      ensures Valid() && nalloc != -1
      ensures Flat(iov) == old(Flat(iov)) + TakeUpTo(DropUpTo(Flat(src.iov), skip), limit)
      ensures |iov| <= old(|iov|) + |src.iov|
    {
      hide Flat, CopiedFrom;
      var done, left := 0, skip;
      var i := 0;
      ghost var was := Flat(iov);
      assert src.iov[..0] == [];
      CopyStarts(was, skip, limit);
      while i < |src.iov| && done != limit
        invariant 0 <= i <= |src.iov| && Valid() && nalloc != -1 && src.Valid()
        invariant |iov| <= old(|iov|) + i && src.iov == old(src.iov) && 0 <= left && 0 <= done <= limit
        invariant CopiedFrom(was, Flat(iov), Flat(src.iov[..i]), skip, limit, left, done)
      {
        var seg := src.iov[i];
        FlatAppends(src.iov[..i], seg);
        assert src.iov[..i] + [seg] == src.iov[..i + 1];
        CopyContinues(was, Flat(iov), Flat(src.iov[..i]), seg, skip, limit, left, done);
        i := i + 1;
        if left >= |seg| {
          left := left - |seg|;
        } else {
          var part := seg[left..];
          left := 0;
          if done + |part| > limit {
            FlatAppends(iov, part[..limit - done]);
            Add(part[..limit - done]);
            done := limit;
            break;
          }
          FlatAppends(iov, part);
          Add(part);
          done := done + |part|;
        }
      }
      FlatConcat(src.iov[..i], src.iov[i..]);
      assert src.iov[..i] + src.iov[i..] == src.iov;
      assert i == |src.iov| ==> src.iov[..i] == src.iov;
      CopyEnds(was, Flat(iov), Flat(src.iov[..i]), Flat(src.iov), skip, limit, left, done);
    }

    /** qemu_iovec_concat */
    method Concat(src: Qiov, limit: nat)
      requires Valid() && src.Valid() && nalloc != -1 && src != this
      modifies this
      ensures Valid() && nalloc != -1
      ensures Flat(iov) == old(Flat(iov)) + TakeUpTo(Flat(src.iov), limit)
      ensures |iov| <= old(|iov|) + |src.iov|
    {
      assert DropUpTo(Flat(src.iov), 0) == Flat(src.iov);
      Copy(src, 0, limit);
    }

    /** qemu_iovec_to_buffer */
    method ToBuffer() returns (buf: seq<Byte>)
      ensures buf == Flat(iov)
    {
      buf := [];
      var i := 0;
      while i < |iov|
        invariant 0 <= i <= |iov| && buf == Flat(iov[..i])
      {
        FlatAppends(iov[..i], iov[i]);
        assert iov[..i] + [iov[i]] == iov[..i + 1];
        buf := buf + iov[i];
        i := i + 1;
      }
      assert iov[..i] == iov;
    }

    /** qemu_iovec_from_buffer: overwrites the first `count` bytes, segment by segment. */
    method FromBuffer(buf: seq<Byte>, count: nat)
      requires Valid() && count <= |buf|
      modifies this`iov
      ensures Valid() && |iov| == |old(iov)| && forall i | 0 <= i < |iov| :: |iov[i]| == |old(iov)[i]|
      ensures Flat(iov) == TakeUpTo(buf[..count], size) + DropUpTo(old(Flat(iov)), count)
    {
      hide Flat, DropUpTo, TakeUpTo;
      var p, left := 0, count;
      var i := 0;
      ghost var was := iov;
      NothingCopied(0, 0);
      assert buf[..0] == [] && iov[..0] == [] == was[..0];
      while i < |iov| && left > 0
        invariant 0 <= i <= |iov| == |was| && p + left == count && 0 <= p && 0 <= left
        invariant iov[i..] == was[i..]
        invariant forall j | 0 <= j < |iov| :: |iov[j]| == |was[j]|
        invariant p <= |Flat(was[..i])| && (left > 0 ==> p == |Flat(was[..i])|)
        invariant Flat(iov[..i]) == buf[..p] + Flat(was[..i])[p..]
      {
        var copy := if left > |iov[i]| then |iov[i]| else left;
        ghost var before := iov;
        assert iov[i] == was[i] by { assert iov[i..][0] == was[i..][0]; }
        var seg := buf[p..p + copy] + iov[i][copy..];
        iov := iov[i := seg];
        assert iov[..i] == before[..i] && iov[i + 1..] == was[i + 1..] by {
          assert iov[i + 1..] == before[i..][1..] && was[i + 1..] == was[i..][1..];
        }
        FlatAppends(iov[..i], seg);
        FlatAppends(was[..i], was[i]);
        assert iov[..i] + [seg] == iov[..i + 1];
        assert was[..i] + [was[i]] == was[..i + 1];
        Spliced(buf, p, copy, Flat(was[..i]), was[i]);
        p, left := p + copy, left - copy;
        i := i + 1;
      }
      FlatConcat(iov[..i], iov[i..]);
      FlatConcat(was[..i], was[i..]);
      assert iov[..i] + iov[i..] == iov && was[..i] + was[i..] == was;
      if i == |was| {
        NothingCopied(0, 0);
        assert was[i..] == [];
      }
      BufferTaken(buf, count, p, Flat(was[..i]), Flat(was[i..]));
    }
  }

  lemma Spliced(buf: seq<Byte>, p: nat, copy: nat, before: seq<Byte>, seg: seq<Byte>)
    requires p == |before| && copy <= |seg| && p + copy <= |buf|
    ensures (buf[..p] + before[p..]) + (buf[p..p + copy] + seg[copy..]) == buf[..p + copy] + (before + seg)[p + copy..]
  {
    assert before[p..] == [];
    assert (before + seg)[p + copy..] == seg[copy..];
    assert buf[..p] + buf[p..p + copy] == buf[..p + copy];
  }

  lemma BufferTaken(buf: seq<Byte>, count: nat, p: nat, front: seq<Byte>, back: seq<Byte>)
    requires p <= count <= |buf| && p <= |front| && (p == count || (p == |front| && back == []))
    ensures (buf[..p] + front[p..]) + back == TakeUpTo(buf[..count], |front + back|) + DropUpTo(front + back, count)
    ensures |(buf[..p] + front[p..]) + back| == |front + back|
  {
    if p == count {
      assert (front + back)[count..] == front[p..] + back;
    } else {
      assert buf[..count][..p] == buf[..p];
      assert front[p..] == [];
    }
  }

  lemma NothingCopied(skip: nat, limit: nat)
    ensures Flat([]) == [] && TakeUpTo(DropUpTo([], skip), limit) == []
  {}

  /** The state of the copy loop after the source bytes `src`: what has been appended, what is still to be skipped. */
  ghost predicate CopiedFrom(was: seq<Byte>, now: seq<Byte>, src: seq<Byte>, skip: nat, limit: nat, left: nat, done: nat) {
    var taken := TakeUpTo(DropUpTo(src, skip), limit);
    now == was + taken && done == |taken| && left == if skip <= |src| then 0 else skip - |src|
  }

  lemma CopyStarts(was: seq<Byte>, skip: nat, limit: nat)
    ensures Flat([]) == [] && CopiedFrom(was, was, [], skip, limit, skip, 0)
  {
    assert was + [] == was;
  }

  /** One more segment: it is skipped, cut at the limit, or appended from where the skipping ends. */
  lemma CopyContinues(was: seq<Byte>, now: seq<Byte>, src: seq<Byte>, seg: seq<Byte>, skip: nat, limit: nat, left: nat, done: nat)
    requires CopiedFrom(was, now, src, skip, limit, left, done) && done <= limit
    ensures if left >= |seg| then CopiedFrom(was, now, src + seg, skip, limit, left - |seg|, done)
            else if done + (|seg| - left) > limit then
              CopiedFrom(was, now + seg[left..][..limit - done], src + seg, skip, limit, 0, limit)
            else CopiedFrom(was, now + seg[left..], src + seg, skip, limit, 0, done + (|seg| - left))
  {
    hide TakeUpTo, DropUpTo;
    CopiedSoFar(src, seg, skip, limit);
    SegmentCopied(seg, left, limit - done);
    var taken := TakeUpTo(DropUpTo(src, skip), limit);
    var more := TakeUpTo(DropUpTo(seg, left), limit - done);
    assert (was + taken) + more == was + (taken + more);
    assert taken + [] == taken;
  }

  lemma CopyEnds(was: seq<Byte>, now: seq<Byte>, prefix: seq<Byte>, all: seq<Byte>, skip: nat, limit: nat, left: nat, done: nat)
    requires CopiedFrom(was, now, prefix, skip, limit, left, done) && prefix <= all && (prefix == all || done == limit)
    ensures now == was + TakeUpTo(DropUpTo(all, skip), limit)
  {
    hide TakeUpTo, DropUpTo;
    if done == limit {
      LimitReached(prefix, all, skip, limit);
    }
  }

  lemma SegmentCopied(seg: seq<Byte>, left: nat, room: nat)
    ensures left >= |seg| ==> TakeUpTo(DropUpTo(seg, left), room) == []
    ensures left < |seg| ==>
              TakeUpTo(DropUpTo(seg, left), room) == if |seg| - left > room then seg[left..][..room] else seg[left..]
  {}

  lemma LimitReached(prefix: seq<Byte>, all: seq<Byte>, skip: nat, limit: nat)
    requires prefix <= all && |TakeUpTo(DropUpTo(prefix, skip), limit)| == limit
    ensures TakeUpTo(DropUpTo(all, skip), limit) == TakeUpTo(DropUpTo(prefix, skip), limit)
  {}
}
