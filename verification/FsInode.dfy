/** `fs.c`: balloc, bfree, bmap, readi, writei and itrunc over an in-memory inode table, its on-disk copy,
    the free bitmap and the data blocks. */
module FsInode {
  import opened FsState
  import opened FsBlocks
  import opened FsContent
  import opened FsGrow
  import opened FsSpace
  import opened Counting

  class FileSystem {
    const sb: Super
    var bitmap: seq<bool>
    var blocks: seq<Blk>
    var ip: seq<Inode>
    var dip: seq<Inode>
    ghost var logged: set<nat>
    ghost var peak: nat

    constructor (sb: Super, bitmap: seq<bool>, blocks: seq<Blk>, ip: seq<Inode>)
      ensures St() == View(sb, bitmap, blocks, ip) && dip == ip && logged == {} && peak == 0
    {
      this.sb, this.bitmap, this.blocks, this.ip, dip, logged, peak := sb, bitmap, blocks, ip, ip, {}, 0;
    }

    function St(): View
      reads this
    {
      View(sb, bitmap, blocks, ip)
    }

    /** Between operations: ownership, no holes, and the inodes on disk as in memory. */
    ghost predicate Valid()
      reads this
    {
      Ownership(St(), {}) && AllFilled(St()) && dip == ip
    }

    /** A transaction of its own: what it logs is counted from nothing. */
    method BeginOp()
      modifies this`logged, this`peak
      ensures logged == {} && peak == 0
    {
      logged, peak := {}, 0;
    }

    /** log_write of block b. `peak` is the most blocks any call of the transaction has found logged. */
    ghost method LogWrite(b: nat)
      modifies this`logged, this`peak
      ensures logged == old(logged) + {b} && peak == Max(old(peak), |old(logged)|)
    {
      logged, peak := logged + {b}, Max(peak, |logged|);
    }

    // ---- Block allocation ----

    /** Scan one bitmap block. */
    method ScanBlock(b: nat) returns (bi: nat)
      requires Shape(St())
      ensures bi <= BPB && (forall c :: b <= c < b + bi && c < sb.size ==> bitmap[c])
      ensures bi < BPB && b + bi < sb.size ==> !bitmap[b + bi]
    {
      bi := 0;
      while bi < BPB && b + bi < sb.size
        invariant bi <= BPB && (forall c :: b <= c < b + bi && c < sb.size ==> bitmap[c])
      {
        if !bitmap[b + bi] { return; }
        bi := bi + 1;
      }
    }

    /** Mark block r in use in bitmap block m, and zero it. */
    method Take(r: nat, m: nat)
      requires r < |bitmap| && r < |blocks|
      modifies this`bitmap, this`blocks, this`logged, this`peak
      ensures St() == Allocated(old(St()), r) && logged == old(logged) + {m, r} && Calls(old(peak), old(logged), peak, logged)
    {
      hide Calls;
      CallsNone(peak, logged);
      bitmap := bitmap[r := true];
      CallsNext(peak, logged, peak, logged, m);
      LogWrite(m);
      blocks := blocks[r := Zeros()];
      CallsNext(old(peak), old(logged), peak, logged, r);
      LogWrite(r);
      assert logged == old(logged) + {m, r};
    }

    /** balloc takes the lowest free block, zeroes it and logs its bitmap block and itself; not ok is
        the out-of-blocks panic, reached only with every block in use. */
    method Balloc() returns (r: nat, ok: bool)
      requires Shape(St())
      modifies this`bitmap, this`blocks, this`logged, this`peak
      ensures ok ==> r < sb.size && !old(bitmap)[r] && (forall c :: 0 <= c < r ==> old(bitmap)[c])
      ensures ok ==> St() == Allocated(old(St()), r) && logged == old(logged) + {sb.bmapstart + r / BPB, r}
      ensures !ok ==> St() == old(St()) && logged == old(logged) && Full(St())
      ensures Calls(old(peak), old(logged), peak, logged)
    {
      hide Calls, Allocated;
      CallsNone(peak, logged);
      var b := 0;
      while b < sb.size
        invariant b % BPB == 0 && St() == old(St()) && logged == old(logged) && peak == old(peak)
        invariant forall c :: 0 <= c < b && c < sb.size ==> bitmap[c]
        decreases sb.size + BPB - b
      {
        var bi := ScanBlock(b);
        if bi < BPB && b + bi < sb.size {
          r := b + bi;
          assert b / BPB == r / BPB;
          Take(r, sb.bmapstart + b / BPB);
          return r, true;
        }
        b := b + BPB;
      }
      return 0, false;
    }

    /** bfree clears the block's bit; not ok is the panic for a block already free. */
    method Bfree(b: nat) returns (ok: bool)
      requires Shape(St()) && b < sb.size
      modifies this`bitmap, this`logged, this`peak
      ensures ok == old(bitmap)[b]
      ensures bitmap == (if ok then old(bitmap)[b := false] else old(bitmap))
      ensures logged == (if ok then old(logged) + {sb.bmapstart + b / BPB} else old(logged))
    {
      if !bitmap[b] { return false; }
      bitmap := bitmap[b := false];
      LogWrite(sb.bmapstart + b / BPB);
      return true;
    }

    // ---- bmap ----

    /** Allocate a block into direct slot s, or the indirect block into slot 12. */
    method FillSlot(i: nat, s: nat) returns (addr: nat, ok: bool)
      requires Ownership(St(), {}) && i < |ip| && s <= NDIRECT && Addr(St(), i, s) == 0
      modifies this`bitmap, this`blocks, this`ip, this`logged, this`peak
      ensures ok ==> 0 < addr < sb.size && Ownership(St(), {}) && SameBytes(old(St()), St()) && Filling(old(St()), St(), i, s, addr)
      ensures ok ==> logged == old(logged) + LogsOf(old(St()), St(), i, s) && Covered(old(St()), St(), logged)
      ensures !ok ==> Full(St()) && St() == old(St())
      ensures Calls(old(peak), old(logged), peak, logged)
    {
      hide Ownership, SameBytes, MapsTo, Calls, Covered;
      ghost var v := St();
      OwnershipShape(v, {});
      addr, ok := Balloc();
      if ok {
        ghost var w := St();
        AllocOk(v, {}, addr);
        AllocMaps(v, {}, addr);
        assert {} + {addr} == {addr};
        AllocCovered(v, addr, logged);
        ip := ip[i := Inode(ip[i].size, ip[i].addrs[s := addr])];
        assert Addr(w, i, s) == 0 by { AllocAddr(v, {}, addr, i, s); }
        SetAddrOk(w, {addr}, i, s, addr);
        EntryInRange(w, {addr}, addr);
        assert {addr} - {addr} == {};
        SameBytesTrans(v, w, St());
        FillingThen(v, w, St(), i, s, addr);
        FillLogs(v, St(), i, s, addr, old(logged), logged);
        InodesOnly(v, w, St(), logged);
      }
    }

    /** Allocate a block into entry e of the indirect block. */
    method FillEntry(i: nat, e: nat) returns (addr: nat, ok: bool)
      requires Ownership(St(), {}) && i < |ip| && e < NINDIRECT && ip[i].addrs[NDIRECT] != 0 && Addr(St(), i, e + NDIRECT + 1) == 0
      modifies this`bitmap, this`blocks, this`logged, this`peak
      ensures ok ==> 0 < addr < sb.size && Ownership(St(), {}) && SameBytes(old(St()), St()) && Filling(old(St()), St(), i, e + NDIRECT + 1, addr)
      ensures ok ==> logged == old(logged) + LogsOf(old(St()), St(), i, e + NDIRECT + 1) && Covered(old(St()), St(), logged)
      ensures !ok ==> Full(St()) && St() == old(St())
      ensures Calls(old(peak), old(logged), peak, logged)
    {
      hide Ownership, SameBytes, MapsTo, Calls, Covered;
      ghost var v := St();
      OwnershipShape(v, {});
      IndirectInRange(v, {}, i);
      var ind := ip[i].addrs[NDIRECT];
      addr, ok := Balloc();
      if ok {
        ghost var w := St();
        AllocOk(v, {}, addr);
        AllocMaps(v, {}, addr);
        AllocAddr(v, {}, addr, i, e + NDIRECT + 1);
        assert {} + {addr} == {addr};
        EntryInRange(w, {addr}, addr);
        AllocCovered(v, addr, logged);
        ghost var l := logged;
        blocks := blocks[ind := SetWord(blocks[ind], e, addr)];
        CallsNext(old(peak), old(logged), peak, logged, ind);
        LogWrite(ind);
        StoreCovered(w, St(), ind, blocks[ind], logged);
        CoveredTrans(v, w, St(), l, logged);
        SetEntryOk(w, {addr}, i, e, addr);
        assert {addr} - {addr} == {};
        SameBytesTrans(v, w, St());
        FillingThen(v, w, St(), i, e + NDIRECT + 1, addr);
        FillLogs(v, St(), i, e + NDIRECT + 1, addr, old(logged), logged);
      }
    }

    /** bmap: the block of file block bn, allocating it, and the indirect block, where missing. No
        file's bytes change, and exactly the growth is logged. Not ok stands for either panic. */
    method Bmap(i: nat, bn: nat) returns (addr: nat, ok: bool)
      requires Ownership(St(), {}) && i < |ip|
      modifies this`bitmap, this`blocks, this`ip, this`logged, this`peak
      ensures ok ==> bn < MAXFILE && Mapped(old(St()), St(), i, SlotOf(bn), addr, old(logged), logged)
      ensures bn < MAXFILE && Addr(old(St()), i, SlotOf(bn)) != 0 ==> ok && St() == old(St()) && logged == old(logged) && peak == old(peak)
      ensures !ok && bn < MAXFILE ==> Stuck(old(St()), St(), i, SlotOf(bn))
      ensures Calls(old(peak), old(logged), peak, logged)
    {
      hide Ownership, Mapped, Filling, Calls, Stuck, Full;
      CallsNone(peak, logged);
      ghost var v := St();
      if bn < NDIRECT {
        addr, ok := ip[i].addrs[bn], true;
        if addr != 0 {
          MappedSame(v, i, bn, addr, logged);
        } else {
          addr, ok := FillSlot(i, bn);
          if ok { MappedFill(v, St(), i, bn, addr, old(logged), logged); } else { StuckHere(v, i, bn); }
        }
      } else if bn - NDIRECT < NINDIRECT {
        addr, ok := BmapIndirect(i, bn - NDIRECT);
      } else {
        addr, ok := 0, false;
      }
    }

    /** bmap's indirect branch. */
    method BmapIndirect(i: nat, e: nat) returns (addr: nat, ok: bool)
      requires Ownership(St(), {}) && i < |ip| && e < NINDIRECT
      modifies this`bitmap, this`blocks, this`ip, this`logged, this`peak
      ensures ok ==> Mapped(old(St()), St(), i, e + NDIRECT + 1, addr, old(logged), logged)
      ensures Addr(old(St()), i, e + NDIRECT + 1) != 0 ==> ok && St() == old(St()) && logged == old(logged) && peak == old(peak)
      ensures !ok ==> Stuck(old(St()), St(), i, e + NDIRECT + 1)
      ensures Calls(old(peak), old(logged), peak, logged)
    {
      hide Ownership, Mapped, Filling, Calls, Stuck, Full;
      ghost var v := St();
      if ip[i].addrs[NDIRECT] != 0 {
        addr, ok := BmapEntry(i, e);
      } else {
        var ind;
        ind, ok := FillSlot(i, NDIRECT);
        if !ok {
          StuckHere(v, i, e + NDIRECT + 1);
          addr := 0;
          return;
        }
        ghost var w, p, l := St(), peak, logged;
        MappedFill(v, w, i, NDIRECT, ind, old(logged), l);
        MappedLength(v, w, i, NDIRECT, ind, old(logged), l);
        addr, ok := BmapEntry(i, e);
        CallsTrans(old(peak), old(logged), p, l, peak, logged);
        if ok {
          MappedThen(v, w, St(), i, e + NDIRECT + 1, ind, addr, old(logged), l, logged);
        } else {
          StuckThen(v, w, St(), i, e + NDIRECT + 1, ind, old(logged), l);
        }
      }
    }

    /** The rest of it, with the indirect block in place. */
    method BmapEntry(i: nat, e: nat) returns (addr: nat, ok: bool)
      requires Ownership(St(), {}) && i < |ip| && e < NINDIRECT && ip[i].addrs[NDIRECT] != 0
      modifies this`bitmap, this`blocks, this`ip, this`logged, this`peak
      ensures ok ==> Mapped(old(St()), St(), i, e + NDIRECT + 1, addr, old(logged), logged)
      ensures Addr(old(St()), i, e + NDIRECT + 1) != 0 ==> ok && St() == old(St()) && logged == old(logged) && peak == old(peak)
      ensures !ok ==> Stuck(old(St()), St(), i, e + NDIRECT + 1)
      ensures Calls(old(peak), old(logged), peak, logged)
    {
      hide Ownership, Mapped, Filling, Calls, Stuck, Full, GetWord, Addr;
      CallsNone(peak, logged);
      ghost var v := St();
      EntryAddr(v, i, e);
      addr, ok := GetWord(blocks[ip[i].addrs[NDIRECT]], e), true;
      if addr != 0 {
        MappedSame(v, i, e + NDIRECT + 1, addr, logged);
      } else {
        addr, ok := FillEntry(i, e);
        if ok { MappedFill(v, St(), i, e + NDIRECT + 1, addr, old(logged), logged); } else { StuckHere(v, i, e + NDIRECT + 1); }
      }
    }

    // ---- Writing ----

    /** One pass of writei's loop: map the block, copy into it, log it. */
    method WriteBlock(i: nat, off: nat, d: seq<Byte>) returns (ok: bool)
      requires Ownership(St(), {}) && i < |ip| && off < MAXFILE * BSIZE && off % BSIZE + |d| <= BSIZE
      modifies this`bitmap, this`blocks, this`ip, this`logged, this`peak
      ensures ok ==> Ownership(St(), {}) && Grown(old(St()), St(), i) && Spliced(old(St()), St(), i, off, d)
      ensures ok ==> i < |ip| && Addr(St(), i, SlotOf(off / BSIZE)) != 0 && ip[i].size == old(ip[i].size)
      ensures ok ==> OnlyNew(old(St()), St(), i, SlotOf(off / BSIZE))
      ensures !ok ==> Stuck(old(St()), St(), i, SlotOf(off / BSIZE))
      ensures ok && Addr(old(St()), i, SlotOf(off / BSIZE)) != 0 ==> ip == old(ip)
      ensures ok ==> logged == old(logged) + LoggedBy(old(St()), St(), i) + {Addr(St(), i, SlotOf(off / BSIZE))}
      ensures ok ==> Covered(old(St()), St(), logged)
      ensures Calls(old(peak), old(logged), peak, logged)
    {
      hide Ownership, SameBytes, Grown, Spliced, LoggedBy, Calls, Stuck, Covered;
      ghost var v := St();
      var a;
      a, ok := Bmap(i, off / BSIZE);
      if ok {
        ghost var w := St();
        GrownLength(v, w, i);
        SlotInRange(w, i, off / BSIZE);
        StoredSpliced(w, i, off, d);
        ghost var l := logged;
        blocks := blocks[a := Patched(blocks[a], off % BSIZE, d)];
        CallsNext(old(peak), old(logged), peak, logged, a);
        LogWrite(a);
        StoreCovered(w, St(), a, blocks[a], logged);
        CoveredTrans(v, w, St(), l, logged);
        SplicedAfterSame(v, w, St(), i, off, d);
        GrownSame(v, w, St(), i);
      }
    }

    /** iupdate: copy the inode to disk and log its block. */
    method Iupdate(i: nat)
      requires i < |ip| && i < |dip|
      modifies this`dip, this`logged, this`peak
      ensures dip == old(dip)[i := ip[i]] && logged == old(logged) + {sb.inodestart + i / IPB} && peak == Max(old(peak), |old(logged)|)
    {
      dip := dip[i := ip[i]];
      LogWrite(sb.inodestart + i / IPB);
    }

    /** One turn of writei's loop, after tot bytes: the bytes that fit in the block under off + tot. */
    method WriteTurn(i: nat, src: seq<Byte>, off: nat, n: nat, tot: nat, ghost v: View, ghost l0: set<nat>)
      returns (m: nat, ok: bool, ghost t: nat)
      requires tot < n == |src| && AtBoundary(off, tot, n) && off + n <= MAXFILE * BSIZE && Turned(v, St(), i, off, src, tot, l0, logged)
      modifies this`bitmap, this`blocks, this`ip, this`logged, this`peak
      ensures 0 < m <= n - tot && AtBoundary(off, tot + m, n) && Calls(old(peak), old(logged), peak, logged)
      ensures ok ==> Turned(v, St(), i, off, src, tot + m, l0, logged) && (i < |v.ip| && off + n <= v.ip[i].size ==> ip == old(ip))
      ensures !ok ==> Short(v, St(), i, off, n, t)
    {
      hide Ownership, Grown, Spliced, Filled, Progress, Span, BlocksFor, LoggedBy, DataOf, OnlyNew, NewWithin, Calls, Stuck, Short, Covered;
      ghost var w, l := St(), logged;
      m := Piece(off, tot, n);
      SpanStep(off, tot, n);
      ProgressUse(v, w, i, off, src, tot);
      ok := WriteBlock(i, off + tot, src[tot..tot + m]);
      t := SlotOf(off / BSIZE + Span(off, tot));
      if !ok {
        ProgressNew(v, w, i, off, src, tot);
        StuckIsShort(v, w, St(), i, off, tot, tot + m, n);
        return;
      }
      ProgressStep(v, w, St(), i, off, src, tot, m);
      LogStep(v, w, St(), i, off, src, tot, m);
      CoveredTrans(v, w, St(), l, logged);
      if off + n <= v.ip[i].size { AllocatedBelow(v, w, i, off, src, tot); }
    }

    /** The loop of writei. */
    method WriteLoop(i: nat, src: seq<Byte>, off: nat, n: nat) returns (ok: bool, ghost t: nat)
      requires Ownership(St(), {}) && AllFilled(St()) && i < |ip| && |src| == n && off <= ip[i].size && off + n <= MAXFILE * BSIZE
      modifies this`bitmap, this`blocks, this`ip, this`logged, this`peak
      ensures !ok ==> Short(old(St()), St(), i, off, n, t)
      ensures ok ==> Turned(old(St()), St(), i, off, src, n, old(logged), logged) && (off + n <= old(ip[i].size) ==> ip == old(ip))
      ensures Calls(old(peak), old(logged), peak, logged)
    {
      hide Ownership, AllFilled, Turned, Calls, Short;
      CallsNone(peak, logged);
      ghost var v := St();
      TurnedNone(v, i, off, src, logged);
      t := 0;
      var tot := 0;
      while tot < n
        invariant tot <= n && AtBoundary(off, tot, n) && Turned(v, St(), i, off, src, tot, old(logged), logged)
        invariant off + n <= v.ip[i].size ==> ip == old(ip)
        invariant Calls(old(peak), old(logged), peak, logged)
      {
        ghost var p, l := peak, logged;
        var m;
        m, ok, t := WriteTurn(i, src, off, n, tot, v, old(logged));
        CallsTrans(old(peak), old(logged), p, l, peak, logged);
        if !ok { return; }
        tot := tot + m;
      }
      ok := true;
    }

    /** writei: -1 without any change for an offset past the end, a wrap of off + n or a file grown past
        the maximum; otherwise the contents spliced, no other file changed, the inode on disk again equal
        to the one in memory, and exactly the blocks that changed in the log. Not ok is balloc's panic: exactly
        when fewer blocks are free than the write needs. */
    method Writei(i: nat, src: seq<Byte>, off: nat, n: nat) returns (r: int, ok: bool)
      requires Valid() && i < |ip| && |src| == n && off < UINT_MAX_PLUS_1 && n < UINT_MAX_PLUS_1
      modifies this
      ensures Refused(old(ip[i].size), off, n) ==> ok && r == -1 && St() == old(St()) && dip == old(dip) && logged == old(logged)
      ensures if ok then Valid() else Full(St())
      ensures ok <==> Refused(old(ip[i].size), off, n) || |Needed(old(St()), i, off, n)| <= |FreeSet(old(St()))|
      ensures ok && !Refused(old(ip[i].size), off, n) ==>
        r == n && WriteOk(old(St()), St(), i, off, src, old(logged), logged, old(peak), peak)
    {
      hide Ownership, AllFilled, WriteOk, Needed, FreeSet, Full;
      if off > ip[i].size || (off + n) % UINT_MAX_PLUS_1 < off { return -1, true; }
      if off + n > MAXFILE * BSIZE { return -1, true; }
      ok := WriteAll(i, src, off, n);
      r := if ok then n else -1;
    }

    /** writei past its tests. */
    method WriteAll(i: nat, src: seq<Byte>, off: nat, n: nat) returns (ok: bool)
      requires Valid() && i < |ip| && |src| == n && off <= ip[i].size && off + n <= MAXFILE * BSIZE
      modifies this
      ensures if ok then Valid() else Full(St())
      ensures ok <==> |Needed(old(St()), i, off, n)| <= |FreeSet(old(St()))|
      ensures ok ==> WriteOk(old(St()), St(), i, off, src, old(logged), logged, old(peak), peak)
    {
      hide Ownership, AllFilled, WriteOk, Turned, Needed, FreeSet, Calls, Short, Full;
      ghost var v := St();
      ghost var t;
      ok, t := WriteLoop(i, src, off, n);
      if !ok {
        ShortDisk(v, St(), i, off, n, t);
        ShortFull(v, St(), i, off, n, t);
        return;
      }
      CallsBound(old(peak), old(logged), peak, logged);
      Finish(v, St(), i, off, src, old(logged), logged, old(peak), peak);
      if n > 0 && off + n > ip[i].size {
        ip := ip[i := Inode(off + n, ip[i].addrs)];
        Iupdate(i);
      }
    }

    // ---- Reading ----

    /** One pass of readi's loop: m bytes of the block under offset at. */
    method ReadBlock(i: nat, at: nat, m: nat) returns (d: seq<Byte>)
      requires Valid() && i < |ip| && at % BSIZE + m <= BSIZE && at + m <= ip[i].size <= MAXFILE * BSIZE && m > 0
      modifies this`bitmap, this`blocks, this`ip, this`logged, this`peak
      ensures St() == old(St()) && logged == old(logged) && peak == old(peak) && d == Content(St(), i)[at..at + m]
    {
      hide Ownership, AllFilled, Content, SameBytes, Grown;
      BelowSize(St(), i, at);
      ContentLength(St(), i);
      var addr, ok;
      addr, ok := Bmap(i, at / BSIZE);
      ReadPiece(St(), i, at, m);
      d := blocks[addr][at % BSIZE..at % BSIZE + m];
    }

    /** readi: the contents from off, at most n bytes; nothing changes. */
    method Readi(i: nat, off: nat, n: nat) returns (dst: seq<Byte>, r: int)
      requires Valid() && i < |ip| && off < UINT_MAX_PLUS_1 && n < UINT_MAX_PLUS_1
      modifies this`bitmap, this`blocks, this`ip, this`logged, this`peak
      ensures St() == old(St()) && logged == old(logged) && peak == old(peak)
      ensures off > ip[i].size || off + n >= UINT_MAX_PLUS_1 ==> r == -1 && dst == []
      ensures off <= ip[i].size && off + n < UINT_MAX_PLUS_1 ==>
        r == Min(n, ip[i].size - off) && dst == Content(St(), i)[off..off + r]
    {
      hide Ownership, AllFilled, Content, BlocksFor, Span, Piece;
      dst := [];
      if off > ip[i].size || (off + n) % UINT_MAX_PLUS_1 < off { return [], -1; }
      var len := if off + n > ip[i].size then ip[i].size - off else n;
      ghost var v := St();
      ContentLength(v, i);
      ghost var c := Content(v, i);
      var tot := 0;
      while tot < len
        invariant tot <= len && |dst| == tot && St() == v && logged == old(logged) && peak == old(peak)
        invariant AtBoundary(off, tot, len) && dst == c[off..off + tot]
      {
        var m := Piece(off, tot, len);
        SpanStep(off, tot, len);
        var d := ReadBlock(i, off + tot, m);
        SliceJoin(c, off, off + tot, off + tot + m);
        dst := dst + d;
        tot := tot + m;
      }
      r := len;
    }

    // ---- Truncation ----

    /** Free the block of slot s, if any; bfree's panic is not reached. */
    method FreeSlot(i: nat, s: nat, a: nat, ghost v: View, ghost done: set<nat>)
      requires Ownership(v, {}) && i < |v.ip| && s < SLOTS && a == Addr(v, i, s) && s !in done
      requires v.sb == sb && |blocks| == |v.blocks| && Cut(v, i, done, bitmap)
      modifies this`bitmap, this`logged, this`peak
      ensures Cut(v, i, done + {s}, bitmap)
      ensures old(logged) <= logged <= old(logged) + MapBlocks() && BitsIn(sb, old(bitmap), bitmap, logged)
    {
      hide Ownership, Cut;
      OwnershipShape(v, {});
      CutUse(v, i, done, bitmap, s);
      if a != 0 {
        var ok := Bfree(a);
        assert ok;
      }
      CutStep(v, i, done, old(bitmap), bitmap, s);
    }

    ghost function MapBlocks(): set<nat> { Upto(sb.bmapstart, sb.bmapstart + sb.size / BPB + 1) }

    /** itrunc's first loop: the direct blocks. */
    method FreeDirect(i: nat, ghost v: View)
      requires Ownership(v, {}) && v == St() && i < |ip|
      modifies this`bitmap, this`ip, this`logged, this`peak
      ensures Cut(v, i, Upto(0, NDIRECT), bitmap)
      ensures logged <= old(logged) + MapBlocks() && BitsIn(sb, v.bitmap, bitmap, logged)
      ensures |ip| == |v.ip| && ip == v.ip[i := ip[i]]
      ensures forall s :: 0 <= s <= NDIRECT ==> ip[i].addrs[s] == (if s < NDIRECT then 0 else v.ip[i].addrs[s])
    {
      hide Ownership, Cut;
      CutNone(v, i);
      var k := 0;
      assert BitsIn(sb, v.bitmap, bitmap, logged);
      hide BitsIn;
      while k < NDIRECT
        invariant k <= NDIRECT && Cut(v, i, Upto(0, k), bitmap)
        invariant logged <= old(logged) + MapBlocks() && BitsIn(sb, v.bitmap, bitmap, logged)
        invariant |ip| == |v.ip| && ip == v.ip[i := ip[i]]
        invariant forall s :: 0 <= s <= NDIRECT ==> ip[i].addrs[s] == (if s < k then 0 else v.ip[i].addrs[s])
      {
        UptoNext(0, k);
        ghost var bm, l := bitmap, logged;
        FreeSlot(i, k, ip[i].addrs[k], v, Upto(0, k));
        BitsTrans(sb, v.bitmap, bm, bitmap, l, logged);
        ip := ip[i := Inode(ip[i].size, ip[i].addrs[k := 0])];
        k := k + 1;
      }
    }

    /** itrunc's second loop: the entries of the indirect block, then the block itself. */
    method FreeIndirect(i: nat, ind: nat, ghost v: View)
      requires Ownership(v, {}) && v.sb == sb && blocks == v.blocks && i < |v.ip| && ind == v.ip[i].addrs[NDIRECT] != 0
      requires Cut(v, i, Upto(0, NDIRECT), bitmap) && BitsIn(sb, v.bitmap, bitmap, logged)
      modifies this`bitmap, this`logged, this`peak
      ensures Cut(v, i, Upto(0, NDIRECT) + Upto(NDIRECT + 1, NDIRECT + 1 + NINDIRECT) + {NDIRECT}, bitmap)
      ensures logged <= old(logged) + MapBlocks() && BitsIn(sb, v.bitmap, bitmap, logged)
    {
      hide Ownership, Cut, BitsIn;
      IndirectInRange(v, {}, i);
      assert Upto(0, NDIRECT) + Upto(NDIRECT + 1, NDIRECT + 1) == Upto(0, NDIRECT);
      var j := 0;
      while j < NINDIRECT
        invariant j <= NINDIRECT && Cut(v, i, Upto(0, NDIRECT) + Upto(NDIRECT + 1, NDIRECT + 1 + j), bitmap)
        invariant logged <= old(logged) + MapBlocks() && BitsIn(sb, v.bitmap, bitmap, logged)
      {
        UptoNext(NDIRECT + 1, NDIRECT + 1 + j);
        ghost var bm, l := bitmap, logged;
        FreeSlot(i, NDIRECT + 1 + j, GetWord(blocks[ind], j), v, Upto(0, NDIRECT) + Upto(NDIRECT + 1, NDIRECT + 1 + j));
        BitsTrans(sb, v.bitmap, bm, bitmap, l, logged);
        UnionAdd(Upto(0, NDIRECT), Upto(NDIRECT + 1, NDIRECT + 1 + j), NDIRECT + 1 + j);
        j := j + 1;
      }
      ghost var bm, l := bitmap, logged;
      FreeSlot(i, NDIRECT, ind, v, Upto(0, NDIRECT) + Upto(NDIRECT + 1, NDIRECT + 1 + NINDIRECT));
      BitsTrans(sb, v.bitmap, bm, bitmap, l, logged);
    }

    /** itrunc: exactly the inode's blocks become free, the inode is empty on disk and in memory, no other
        file changes, every bfree finds its block in use, and every block changed is logged. */
    method Itrunc(i: nat)
      requires Valid() && i < |ip|
      modifies this`bitmap, this`ip, this`dip, this`logged, this`peak
      ensures Valid() && Released(old(St()), i, bitmap) && St() == Truncated(old(St()), i, bitmap)
      ensures forall j :: 0 <= j < |ip| && j != i ==> SameFile(old(St()), St(), j)
      ensures logged <= old(logged) + {sb.inodestart + i / IPB} + MapBlocks()
      ensures Covered(old(St()), St(), logged) && InodeBlock(sb, i) in logged
    {
      hide Ownership, Cut, AllFilled, Released;
      ghost var v := St();
      FreeDirect(i, v);
      var ind := ip[i].addrs[NDIRECT];
      if ind != 0 {
        FreeIndirect(i, ind, v);
        ip := ip[i := Inode(ip[i].size, ip[i].addrs[NDIRECT := 0])];
      }
      CutAll(v, i, bitmap, ind);
      ip := ip[i := Inode(0, ip[i].addrs)];
      assert ip[i].addrs == NoAddrs();
      assert ip == v.ip[i := Inode(0, NoAddrs())];
      Iupdate(i);
      assert dip == ip;
      TruncatedOwnership(v, i, bitmap);
      TruncatedFilled(v, i, bitmap);
    }
  }

  // ---- What bmap has done ----

  /** Slot s of inode i has block addr, filled if it was empty, with the indirect block for an entry; no file changed,
      and the log went from l0 to l by exactly that growth, which covers every block changed. */
  ghost predicate Mapped(v: View, w: View, i: nat, s: nat, addr: nat, l0: set<nat>, l: set<nat>) {
    && Ownership(w, {}) && SameBytes(v, w) && Grown(v, w, i) && s < SLOTS && OnlyNew(v, w, i, s)
    && i < |v.ip| && i < |w.ip| && w.ip[i].size == v.ip[i].size && 0 < addr == Addr(w, i, s) < w.sb.size == |w.blocks|
    && l == l0 + LoggedBy(v, w, i) && Covered(v, w, l)
  }

  lemma EntryAddr(v: View, i: nat, e: nat)
    requires Ownership(v, {}) && i < |v.ip| && e < NINDIRECT && v.ip[i].addrs[NDIRECT] != 0
    ensures v.ip[i].addrs[NDIRECT] < |v.blocks| && Addr(v, i, e + NDIRECT + 1) == GetWord(v.blocks[v.ip[i].addrs[NDIRECT]], e)
  {
    IndirectInRange(v, {}, i);
  }

  lemma MappedSame(v: View, i: nat, s: nat, addr: nat, l: set<nat>)
    requires Ownership(v, {}) && i < |v.ip| && s < SLOTS && 0 < addr == Addr(v, i, s)
    ensures Mapped(v, v, i, s, addr, l, l)
  {
    hide SameBytes, Grown, LoggedBy, Covered;
    assert AddrOk(v, {}, i, s);
    GrownRefl(v, i);
    CoveredNone(v, l);
  }

  lemma MappedFill(v: View, w: View, i: nat, s: nat, addr: nat, l0: set<nat>, l: set<nat>)
    requires Ownership(w, {}) && SameBytes(v, w) && Filling(v, w, i, s, addr) && s < SLOTS && Addr(v, i, s) == 0 && 0 < addr < w.sb.size
    requires l == l0 + LogsOf(v, w, i, s) && Covered(v, w, l)
    ensures Mapped(v, w, i, s, addr, l0, l)
  {
    hide SameBytes, Grown, LoggedBy, Filling, Ownership, LogsOf, Covered;
    FillingGrown(v, w, i, s, addr);
    GrownLength(v, w, i);
    OwnershipShape(w, {});
  }

  /** What balloc, and for an entry bmap itself, logs when slot s is filled. */
  lemma FillLogs(v: View, w: View, i: nat, s: nat, addr: nat, l0: set<nat>, l: set<nat>)
    requires Filling(v, w, i, s, addr) && s < SLOTS && Addr(v, i, s) == 0 && addr != 0
    requires l == l0 + {w.sb.bmapstart + addr / BPB, addr} + if s > NDIRECT then {w.ip[i].addrs[NDIRECT]} else {}
    ensures l == l0 + LogsOf(v, w, i, s)
  {
    assert IsNew(v, w, i, s) && Addr(w, i, s) == addr;
  }

  lemma MappedLength(v: View, w: View, i: nat, s: nat, addr: nat, l0: set<nat>, l: set<nat>)
    requires Mapped(v, w, i, s, addr, l0, l)
    ensures Ownership(w, {}) && i < |v.ip| && i < |w.ip| && Addr(w, i, s) == addr != 0
  {}

  /** The indirect block first, then an entry of it. */
  lemma MappedThen(v: View, w: View, x: View, i: nat, s: nat, ind: nat, addr: nat, l0: set<nat>, l1: set<nat>, l2: set<nat>)
    requires Mapped(v, w, i, NDIRECT, ind, l0, l1) && Mapped(w, x, i, s, addr, l1, l2) && s > NDIRECT
    ensures Mapped(v, x, i, s, addr, l0, l2)
  {
    hide SameBytes, Grown, LoggedBy, Ownership, Covered;
    CoveredTrans(v, w, x, l1, l2);
    assert OnlyNew(v, w, i, s);
    hide OnlyNew;
    OnlyNewTrans(v, w, x, i, s);
    LoggedTrans(v, w, x, i);
    GrownTrans(v, w, x, i);
    SameBytesTrans(v, w, x);
  }

  lemma StuckHere(v: View, i: nat, s: nat)
    requires Ownership(v, {}) && Full(v) && i < |v.ip| && s < SLOTS && Addr(v, i, s) == 0
    ensures Stuck(v, v, i, s)
  {
    hide Ownership, Grown, Full;
    GrownRefl(v, i);
  }

  lemma StuckThen(v: View, w: View, x: View, i: nat, s: nat, ind: nat, l0: set<nat>, l1: set<nat>)
    requires Mapped(v, w, i, NDIRECT, ind, l0, l1) && Stuck(w, x, i, s) && s > NDIRECT
    ensures Stuck(v, x, i, s)
  {
    hide Grown, Ownership, Full, SameBytes, LoggedBy;
    assert OnlyNew(v, w, i, s);
    hide OnlyNew;
    GrownLength(w, x, i);
    OnlyNewTrans(v, w, x, i, s);
    GrownTrans(v, w, x, i);
  }

  // ---- The write loop ----

  /** writei refuses: past the end, off + n wraps, or past the largest file. */
  predicate Refused(size: nat, off: nat, n: nat) {
    off > size || off + n >= UINT_MAX_PLUS_1 || off + n > MAXFILE * BSIZE
  }

  /** tot bytes of src have been written at off; the size is still the old one. */
  ghost predicate Progress(v: View, w: View, i: nat, off: nat, src: seq<Byte>, tot: nat) {
    && tot <= |src| && Ownership(w, {}) && Grown(v, w, i) && NewWithin(v, w, i, off, tot)
    && i < |v.ip| && i < |w.ip| && w.ip[i].size == v.ip[i].size
    && Spliced(v, w, i, off, src[..tot])
    && Filled(w, i, Max(v.ip[i].size, off + tot))
  }

  lemma ProgressStart(v: View, i: nat, off: nat, src: seq<Byte>)
    requires Ownership(v, {}) && AllFilled(v) && i < |v.ip| && off <= v.ip[i].size
    ensures Progress(v, v, i, off, src, 0)
  {
    hide Ownership, Spliced;
    GrownRefl(v, i);
    SplicedNone(v, i, off);
    assert src[..0] == [];
    assert Filled(v, i, v.ip[i].size);
  }

  /** Progress, with the log holding exactly what that took, every block changed among it. */
  ghost predicate Turned(v: View, w: View, i: nat, off: nat, src: seq<Byte>, tot: nat, l0: set<nat>, l: set<nat>) {
    && Progress(v, w, i, off, src, tot)
    && l == l0 + LoggedBy(v, w, i) + DataOf(w, i, off, tot) && Covered(v, w, l)
  }

  lemma TurnedNone(v: View, i: nat, off: nat, src: seq<Byte>, l: set<nat>)
    requires Ownership(v, {}) && AllFilled(v) && i < |v.ip| && off <= v.ip[i].size
    ensures Turned(v, v, i, off, src, 0, l, l)
  {
    hide Ownership, Progress, Covered;
    ProgressStart(v, i, off, src);
    NothingLogged(v, i, off);
    CoveredNone(v, l);
  }

  lemma ProgressUse(v: View, w: View, i: nat, off: nat, src: seq<Byte>, tot: nat)
    requires Progress(v, w, i, off, src, tot)
    ensures Ownership(w, {}) && Grown(v, w, i) && i < |v.ip| == |w.ip| && w.ip[i].size == v.ip[i].size
  {}

  lemma ProgressNew(v: View, w: View, i: nat, off: nat, src: seq<Byte>, tot: nat)
    requires Progress(v, w, i, off, src, tot)
    ensures Grown(v, w, i) && NewWithin(v, w, i, off, tot)
  {}

  /** A completed loop filled every slot it needed. */
  lemma ProgressEnough(v: View, w: View, i: nat, off: nat, src: seq<Byte>)
    requires Progress(v, w, i, off, src, |src|)
    ensures i < |v.ip| && |Needed(v, i, off, |src|)| <= |FreeSet(v)|
  {
    hide Ownership, Grown, NewWithin, Spliced, Needed, FreeSet;
    assert Filled(w, i, off + |src|);
    EnoughDisk(v, w, i, off, |src|);
  }

  lemma ShortFull(v: View, w: View, i: nat, off: nat, n: nat, t: nat)
    requires Short(v, w, i, off, n, t)
    ensures Full(w)
  {}

  // ---- log_write calls ----

  /** Calls of log_write that took the logged blocks from l0 to l: none found more of them than there are in the end. */
  ghost predicate Calls(p0: nat, l0: set<nat>, p: nat, l: set<nat>) {
    l0 <= l && p <= Max(p0, |l|)
  }

  lemma CallsNone(p: nat, l: set<nat>)
    ensures Calls(p, l, p, l)
  {}

  lemma CallsTrans(p0: nat, l0: set<nat>, p1: nat, l1: set<nat>, p2: nat, l2: set<nat>)
    requires Calls(p0, l0, p1, l1) && Calls(p1, l1, p2, l2)
    ensures Calls(p0, l0, p2, l2)
  {
    CardSubset(l1, l2);
  }

  lemma CallsNext(p0: nat, l0: set<nat>, p: nat, l: set<nat>, b: nat)
    requires Calls(p0, l0, p, l)
    ensures Calls(p0, l0, Max(p, |l|), l + {b})
  {
    CardSubset(l, l + {b});
  }

  lemma CallsBound(p0: nat, l0: set<nat>, p: nat, l: set<nat>)
    requires Calls(p0, l0, p, l)
    ensures p <= Max(p0, |l|)
  {}

  lemma ProgressStep(v: View, w: View, x: View, i: nat, off: nat, src: seq<Byte>, tot: nat, m: nat)
    requires Progress(v, w, i, off, src, tot) && tot + m <= |src| && off + tot + m <= MAXFILE * BSIZE && off + tot < MAXFILE * BSIZE
    requires Ownership(x, {}) && Grown(w, x, i) && Spliced(w, x, i, off + tot, src[tot..tot + m])
    requires i < |x.ip| && i < |w.ip| && x.ip[i].size == w.ip[i].size && Addr(x, i, SlotOf((off + tot) / BSIZE)) != 0
    requires OnlyNew(w, x, i, SlotOf((off + tot) / BSIZE)) && (off + tot) / BSIZE == off / BSIZE + Span(off, tot)
    requires Span(off, tot + m) == Span(off, tot) + 1
    requires BlocksFor(off + tot + m) == (off + tot) / BSIZE + 1 && (off + tot) / BSIZE <= BlocksFor(off + tot)
    ensures Progress(v, x, i, off, src, tot + m) && i < |x.ip| == |v.ip|
  {
    hide Ownership, Spliced, Grown, NewWithin, OnlyNew;
    GrownTrans(v, w, x, i);
    GrownLength(v, w, i);
    NewWithinStep(v, w, x, i, off, tot, tot + m);
    SplicedJoin(v, w, x, i, off, src[..tot], src[tot..tot + m]);
    assert src[..tot] + src[tot..tot + m] == src[..tot + m];
    FilledStep(w, x, i, Max(v.ip[i].size, off + tot), Max(v.ip[i].size, off + tot + m), (off + tot) / BSIZE);
  }

  lemma FilledStep(w: View, x: View, i: nat, old_: nat, size: nat, bn: nat)
    requires Grown(w, x, i) && Filled(w, i, old_) && size <= MAXFILE * BSIZE && bn < MAXFILE
    requires Addr(x, i, SlotOf(bn)) != 0 && bn <= BlocksFor(old_) && BlocksFor(size) <= Max(BlocksFor(old_), bn + 1)
    ensures Filled(x, i, size) && i < |x.ip|
  {
    forall b | 0 <= b < BlocksFor(size) ensures Addr(x, i, SlotOf(b)) != 0 {
      if b != bn { assert Addr(w, i, SlotOf(b)) != 0; }
    }
  }

  lemma NothingLogged(v: View, i: nat, off: nat)
    requires i < |v.ip|
    ensures LoggedBy(v, v, i) == {} && DataOf(v, i, off, 0) == {}
  {}

  /** One pass logs its growth and its data block, so that the log set stays exact. */
  lemma LogStep(v: View, w: View, x: View, i: nat, off: nat, src: seq<Byte>, tot: nat, m: nat)
    requires Progress(v, w, i, off, src, tot) && Grown(w, x, i) && tot + m <= |src|
    requires (off + tot) / BSIZE == off / BSIZE + Span(off, tot) && Span(off, tot + m) == Span(off, tot) + 1
    requires off + tot + m <= MAXFILE * BSIZE && off + tot < MAXFILE * BSIZE
    ensures i < |x.ip| && LoggedBy(v, x, i) == LoggedBy(v, w, i) + LoggedBy(w, x, i)
    ensures DataOf(x, i, off, tot + m) == DataOf(w, i, off, tot) + {Addr(x, i, SlotOf((off + tot) / BSIZE))}
  {
    hide Ownership, Spliced, Grown, NewWithin, LoggedBy, Span, DataOf;
    GrownLength(w, x, i);
    LoggedTrans(v, w, x, i);
    assert Max(off + tot, w.ip[i].size) == Max(v.ip[i].size, off + tot);
    DataStep(w, x, i, off, tot, tot + m);
  }

  /** Blocks below the old size are allocated throughout. */
  lemma AllocatedBelow(v: View, w: View, i: nat, off: nat, src: seq<Byte>, tot: nat)
    requires Progress(v, w, i, off, src, tot) && off + tot < v.ip[i].size
    ensures off + tot < MAXFILE * BSIZE && Addr(w, i, SlotOf((off + tot) / BSIZE)) != 0
  {}

  /** A completed write: contents spliced, every other file as before. */
  ghost predicate Wrote(v: View, w: View, i: nat, off: nat, src: seq<Byte>) {
    && |w.ip| == |v.ip| && i < |v.ip| && off <= v.ip[i].size <= MAXFILE * BSIZE
    && w.ip[i].size == Max(v.ip[i].size, off + |src|) <= MAXFILE * BSIZE
    && Content(w, i) == Splice(Content(v, i), off, src)
    && (forall j :: 0 <= j < |v.ip| && j != i ==> SameFile(v, w, j))
  }

  /** File j is the same inode with the same bytes. */
  ghost predicate SameFile(v: View, w: View, j: nat) {
    && j < |v.ip| && j < |w.ip| && w.ip[j] == v.ip[j]
    && forall k :: 0 <= k < MAXFILE * BSIZE ==> ByteAt(w, j, k) == ByteAt(v, j, k)
  }

  /** After the loop, growing the size completes the write. */
  lemma WriteDone(v: View, w: View, i: nat, off: nat, src: seq<Byte>)
    requires AllFilled(v) && i < |v.ip| && off <= v.ip[i].size && off + |src| <= MAXFILE * BSIZE
    requires Progress(v, w, i, off, src, |src|)
    ensures i < |w.ip| == |v.ip| && w.ip == v.ip[i := w.ip[i]] && w.ip[i].size == v.ip[i].size
    ensures var x := Resized(w, i, Max(v.ip[i].size, off + |src|));
      Ownership(x, {}) && AllFilled(x) && Wrote(v, x, i, off, src)
    ensures off + |src| <= v.ip[i].size ==> Resized(w, i, Max(v.ip[i].size, off + |src|)) == w
  {
    hide Ownership, Spliced, SameBytes, Content;
    var size := Max(v.ip[i].size, off + |src|);
    var x := Resized(w, i, size);
    ResizedOk(w, {}, i, size);
    assert src[..|src|] == src;
    SplicedThenSame(v, w, x, i, off, src);
    assert Filled(v, i, v.ip[i].size);
    SplicedContent(v, x, i, off, src);
    FilledAfter(v, w, x, i, size);
    forall j | 0 <= j < |v.ip| && j != i ensures SameFile(v, x, j) { SplicedSameFile(v, x, i, off, src, j); }
  }

  /** The blocks of a completed write, for its log set. */
  lemma WriteExtends(v: View, w: View, i: nat, off: nat, src: seq<Byte>)
    requires AllFilled(v) && i < |v.ip| && off <= v.ip[i].size && off + |src| <= MAXFILE * BSIZE
    requires Progress(v, w, i, off, src, |src|)
    ensures var x := Resized(w, i, Max(v.ip[i].size, off + |src|));
      && Extends(v, x, i, off, |src|)
      && LoggedBy(v, x, i) == LoggedBy(v, w, i) && DataOf(x, i, off, |src|) == DataOf(w, i, off, |src|)
  {
    hide Ownership, Spliced, SameBytes, Grown, LoggedBy;
    var x := Resized(w, i, Max(v.ip[i].size, off + |src|));
    ResizedOk(w, {}, i, Max(v.ip[i].size, off + |src|));
    GrownLength(v, w, i);
    GrownSame(v, w, x, i);
    assert Filled(v, i, v.ip[i].size);
    assert forall k :: 0 <= k < Span(off, |src|) ==> DataAt(x, i, off, |src|, k) == DataAt(w, i, off, |src|, k);
  }

  /** A completed write and its log: contents spliced, blocks grown within the span, exactly those blocks logged, every
      block that changed among them, bitmap and inode blocks included, and no call of log_write with more of them logged than there are before the inode. */
  ghost predicate WriteOk(v: View, x: View, i: nat, off: nat, src: seq<Byte>, l0: set<nat>, l: set<nat>, p0: nat, p: nat) {
    && i < |v.ip| && i < |x.ip| && Wrote(v, x, i, off, src) && Extends(v, x, i, off, |src|)
    && l == l0 + WriteLog(v, x, i, off, |src|)
    && Covered(v, x, l) && x.ip == v.ip[i := x.ip[i]] && (x.ip[i] != v.ip[i] ==> InodeBlock(x.sb, i) in l)
    && p <= Max(p0, |l0 + LoggedBy(v, x, i) + DataOf(x, i, off, |src|)|)
  }

  /** What is left after the loop: the size, if it grew, in memory, on disk and in the log. */
  lemma Finish(v: View, w: View, i: nat, off: nat, src: seq<Byte>, l0: set<nat>, l: set<nat>, p0: nat, p: nat)
    requires AllFilled(v) && i < |v.ip| && off <= v.ip[i].size && off + |src| <= MAXFILE * BSIZE
    requires Turned(v, w, i, off, src, |src|, l0, l) && p <= Max(p0, |l|) && (off + |src| <= v.ip[i].size ==> w.ip == v.ip)
    ensures |Needed(v, i, off, |src|)| <= |FreeSet(v)|
    ensures i < |w.ip| == |v.ip| && w.ip == v.ip[i := w.ip[i]] && w.ip[i].size == v.ip[i].size
    ensures var x := Resized(w, i, Max(v.ip[i].size, off + |src|));
      && Ownership(x, {}) && AllFilled(x)
      && (off + |src| > v.ip[i].size ==> WriteOk(v, x, i, off, src, l0, l + {x.sb.inodestart + i / IPB}, p0, Max(p, |l|)))
      && (off + |src| <= v.ip[i].size ==> x == w && WriteOk(v, x, i, off, src, l0, l, p0, p))
  {
    hide Ownership, AllFilled, Wrote, Progress, Extends, LoggedBy, DataOf, Needed, FreeSet, Covered;
    ProgressEnough(v, w, i, off, src);
    WriteDone(v, w, i, off, src);
    WriteExtends(v, w, i, off, src);
    var x := Resized(w, i, Max(v.ip[i].size, off + |src|));
    InodesOnly(v, w, x, l);
    CoveredMore(v, x, l, l + {InodeBlock(x.sb, i)});
    LogOrder(l0, LoggedBy(v, x, i), DataOf(x, i, off, |src|), InodeBlock(x.sb, i));
  }

  lemma LogOrder(l0: set<nat>, a: set<nat>, b: set<nat>, x: nat)
    ensures l0 + a + b == l0 + (b + a + {}) && l0 + a + b + {x} == l0 + (b + a + {x})
  {}

  lemma SplicedSameFile(v: View, x: View, i: nat, off: nat, src: seq<Byte>, j: nat)
    requires Spliced(v, x, i, off, src) && j < |v.ip| && j != i && x.ip[j] == v.ip[j]
    ensures SameFile(v, x, j)
  {}

  lemma FilledAfter(v: View, w: View, x: View, i: nat, size: nat)
    requires AllFilled(v) && Grown(v, w, i) && Filled(w, i, size) && x == Resized(w, i, size)
    requires forall j, t :: 0 <= j < |w.ip| && 0 <= t < SLOTS ==> Addr(x, j, t) == Addr(w, j, t)
    ensures AllFilled(x)
  {
    forall j | 0 <= j < |x.ip| ensures Filled(x, j, x.ip[j].size) {
      if j != i { assert Filled(v, j, v.ip[j].size); }
    }
  }

  // ---- The read loop ----

  lemma SliceJoin(c: seq<Byte>, a: nat, b: nat, d: nat)
    requires a <= b <= d <= |c|
    ensures c[a..b] + c[b..d] == c[a..d]
  {}

  lemma ContentLength(v: View, i: nat)
    requires AllFilled(v) && i < |v.ip|
    ensures v.ip[i].size <= MAXFILE * BSIZE && |Content(v, i)| == v.ip[i].size
  {}

  lemma BelowSize(v: View, i: nat, at: nat)
    requires Ownership(v, {}) && AllFilled(v) && i < |v.ip| && at < v.ip[i].size
    ensures at < MAXFILE * BSIZE && 0 < Addr(v, i, SlotOf(at / BSIZE)) < |v.blocks|
  {
    assert Filled(v, i, v.ip[i].size);
    SlotInRange(v, i, at / BSIZE);
  }

  /** Within one block the bytes are the contents. */
  lemma ReadPiece(v: View, i: nat, at: nat, m: nat)
    requires AllFilled(v) && i < |v.ip| && at % BSIZE + m <= BSIZE && at + m <= v.ip[i].size <= MAXFILE * BSIZE && m > 0
    requires 0 < Addr(v, i, SlotOf(at / BSIZE)) < |v.blocks|
    ensures v.blocks[Addr(v, i, SlotOf(at / BSIZE))][at % BSIZE..at % BSIZE + m] == Content(v, i)[at..at + m]
  {
    hide Addr, AllFilled;
    var blk := v.blocks[Addr(v, i, SlotOf(at / BSIZE))];
    var o := at % BSIZE;
    forall k | o <= k < o + m ensures blk[k] == Content(v, i)[at - o + k] { SameBlock(at, k); }
  }

  lemma SameBlock(at: nat, k: nat)
    requires at % BSIZE <= k < BSIZE
    ensures (at - at % BSIZE + k) / BSIZE == at / BSIZE && (at - at % BSIZE + k) % BSIZE == k
  {}

  // ---- Truncation ----

  predicate Between(lo: nat, s: nat, hi: nat) { lo <= s < hi }

  function Upto(lo: nat, hi: nat): set<nat> { set s: nat | lo <= s < hi && Between(lo, s, hi) }

  lemma UptoNext(lo: nat, hi: nat)
    requires lo <= hi
    ensures Upto(lo, hi + 1) == Upto(lo, hi) + {hi} && hi !in Upto(lo, hi)
  {}

  lemma UnionAdd(a: set<nat>, b: set<nat>, x: nat)
    ensures a + b + {x} == a + (b + {x})
  {}

  /** Whether block b is held by one of the slots in done. */
  ghost predicate HeldIn(v: View, i: nat, done: set<nat>, b: nat) {
    exists s :: s in done && OwnedBy(v, b, i, s)
  }

  /** bm is the bitmap without the blocks of the slots in done. */
  ghost predicate Cut(v: View, i: nat, done: set<nat>, bm: seq<bool>) {
    |bm| == |v.bitmap| && forall b :: 0 <= b < |bm| ==> bm[b] == (v.bitmap[b] && (b == 0 || !HeldIn(v, i, done, b)))
  }

  lemma CutNone(v: View, i: nat)
    ensures Cut(v, i, Upto(0, 0), v.bitmap)
  {}

  lemma CutUse(v: View, i: nat, done: set<nat>, bm: seq<bool>, s: nat)
    requires Ownership(v, {}) && Cut(v, i, done, bm) && i < |v.ip| && s < SLOTS && s !in done
    ensures |bm| == |v.bitmap| && Addr(v, i, s) < v.sb.size && (Addr(v, i, s) != 0 ==> bm[Addr(v, i, s)])
  {
    assert AddrOk(v, {}, i, s);
    var a := Addr(v, i, s);
    if a != 0 {
      forall t: nat | t in done ensures !OwnedBy(v, a, i, t) { assert t < SLOTS ==> ApartAt(v, i, s, i, t); }
    }
  }

  lemma CutStep(v: View, i: nat, done: set<nat>, bm: seq<bool>, bn: seq<bool>, s: nat)
    requires Cut(v, i, done, bm) && i < |v.ip| && s < SLOTS && Addr(v, i, s) < |bm|
    requires bn == (if Addr(v, i, s) == 0 then bm else bm[Addr(v, i, s) := false])
    ensures Cut(v, i, done + {s}, bn)
  {
    forall b | 0 <= b < |bn| ensures bn[b] == (v.bitmap[b] && (b == 0 || !HeldIn(v, i, done + {s}, b))) {
      assert HeldIn(v, i, done + {s}, b) == (HeldIn(v, i, done, b) || b == Addr(v, i, s)) by {
        if HeldIn(v, i, done, b) {
          var t :| t in done && OwnedBy(v, b, i, t);
          assert t in done + {s};
        }
        if b == Addr(v, i, s) { assert s in done + {s} && OwnedBy(v, b, i, s); }
      }
    }
  }

  /** All slots done: exactly the inode's blocks are released. */
  lemma CutAll(v: View, i: nat, bm: seq<bool>, ind: nat)
    requires i < |v.ip| && ind == v.ip[i].addrs[NDIRECT]
    requires ind == 0 ==> Cut(v, i, Upto(0, NDIRECT), bm)
    requires ind != 0 ==> Cut(v, i, Upto(0, NDIRECT) + Upto(NDIRECT + 1, NDIRECT + 1 + NINDIRECT) + {NDIRECT}, bm)
    ensures Released(v, i, bm)
  {
    var done := if ind == 0 then Upto(0, NDIRECT) else Upto(0, NDIRECT) + Upto(NDIRECT + 1, NDIRECT + 1 + NINDIRECT) + {NDIRECT};
    forall b: nat | b != 0 ensures HeldIn(v, i, done, b) == OwnedByInode(v, b, i) {
      if OwnedByInode(v, b, i) {
        var s :| OwnedBy(v, b, i, s);
        assert s in done;
      }
    }
  }

  lemma TruncatedFilled(v: View, i: nat, bm: seq<bool>)
    requires AllFilled(v) && i < |v.ip|
    ensures AllFilled(Truncated(v, i, bm))
    ensures forall j :: 0 <= j < |v.ip| && j != i ==> SameFile(v, Truncated(v, i, bm), j)
  {
    var w := Truncated(v, i, bm);
    forall j | 0 <= j < |w.ip| ensures Filled(w, j, w.ip[j].size) {
      if j != i {
        assert Filled(v, j, v.ip[j].size);
        forall bn | 0 <= bn < BlocksFor(w.ip[j].size) ensures Addr(w, j, SlotOf(bn)) != 0 { TruncatedAt(v, i, bm, j, SlotOf(bn)); }
      }
    }
    forall j | 0 <= j < |v.ip| && j != i ensures SameFile(v, w, j) {
      forall k | 0 <= k < MAXFILE * BSIZE ensures ByteAt(w, j, k) == ByteAt(v, j, k) { TruncatedBytes(v, i, bm, j, k); }
    }
  }

  lemma SlotInRange(v: View, i: nat, bn: nat)
    requires Ownership(v, {}) && i < |v.ip| && bn < MAXFILE
    ensures Addr(v, i, SlotOf(bn)) < v.sb.size == |v.blocks|
  {
    assert AddrOk(v, {}, i, SlotOf(bn));
  }

  lemma OwnershipShape(v: View, orph: set<nat>)
    requires Ownership(v, orph)
    ensures Shape(v)
  {}

  lemma SameBytesTrans(v: View, w: View, x: View)
    requires SameBytes(v, w) && SameBytes(w, x)
    ensures SameBytes(v, x)
  {}
}
