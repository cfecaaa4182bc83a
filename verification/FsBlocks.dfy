/** What the elementary updates of `fs.c` do to block ownership and to file contents: a fresh block
    installed in a slot by bmap, a data block overwritten by writei, an inode emptied by itrunc. */
module FsBlocks {
  import opened FsState

  // ---- Installing a fresh block in a slot ----

  /** w has block b in slot s of inode i; every other slot, and the bitmap, as in v. */
  ghost predicate MapsTo(v: View, w: View, i: nat, s: nat, b: nat) {
    && w.sb == v.sb && w.bitmap == v.bitmap && |w.blocks| == |v.blocks| && |w.ip| == |v.ip|
    && (forall j, t :: 0 <= j < |v.ip| && 0 <= t < SLOTS ==> Addr(w, j, t) == (if j == i && t == s then b else Addr(v, j, t)))
  }

  /** An orphan installed in an empty slot is owned from then on. */
  lemma InstallOwnership(v: View, w: View, orph: set<nat>, i: nat, s: nat, b: nat)
    requires Ownership(v, orph) && b in orph && i < |v.ip| && s < SLOTS && Addr(v, i, s) == 0
    requires MapsTo(v, w, i, s, b)
    ensures Ownership(w, orph - {b})
  {
    forall j, t | 0 <= j < |w.ip| && 0 <= t < SLOTS ensures AddrOk(w, orph - {b}, j, t) {
      assert AddrOk(v, orph, j, t);
    }
    forall j, t, k, u | 0 <= j < |w.ip| && 0 <= t < SLOTS && 0 <= k < |w.ip| && 0 <= u < SLOTS ensures ApartAt(w, j, t, k, u) {
      assert ApartAt(v, j, t, k, u) && AddrOk(v, orph, j, t) && AddrOk(v, orph, k, u);
    }
    forall c | w.sb.datastart <= c < w.sb.size && w.bitmap[c] ensures c in orph - {b} || Owned(w, c) {
      if c == b {
        assert OwnedBy(w, c, i, s);
      } else if c !in orph {
        assert Owned(v, c);
        var j, t :| OwnedBy(v, c, j, t);
        assert OwnedBy(w, c, j, t);
      }
    }
  }

  /** ip->addrs[s] = b, for a direct block or the indirect block. */
  function SetAddr(v: View, i: nat, s: nat, b: nat): View
    requires i < |v.ip| && s <= NDIRECT
  {
    View(v.sb, v.bitmap, v.blocks, v.ip[i := Inode(v.ip[i].size, v.ip[i].addrs[s := b])])
  }

  lemma ZeroWords(j: nat)
    requires j < NINDIRECT
    ensures GetWord(Zeros(), j) == 0
  {}

  lemma SetAddrAt(v: View, i: nat, s: nat, b: nat, j: nat, t: nat)
    requires i < |v.ip| && s <= NDIRECT && j < |v.ip| && t < SLOTS
    requires 0 < b < |v.blocks| && v.blocks[b] == Zeros() && Addr(v, i, s) == 0
    ensures Addr(SetAddr(v, i, s, b), j, t) == (if j == i && t == s then b else Addr(v, j, t))
  {
    if t > NDIRECT { ZeroWords(t - NDIRECT - 1); }
  }

  /** bmap's direct branch, and its allocation of the indirect block: no file changes. */
  lemma SetAddrOk(v: View, orph: set<nat>, i: nat, s: nat, b: nat)
    requires Ownership(v, orph) && b in orph && i < |v.ip| && s <= NDIRECT && Addr(v, i, s) == 0
    requires v.blocks[b] == Zeros()
    ensures Ownership(SetAddr(v, i, s, b), orph - {b}) && SameBytes(v, SetAddr(v, i, s, b))
    ensures MapsTo(v, SetAddr(v, i, s, b), i, s, b)
  {
    var w := SetAddr(v, i, s, b);
    forall j, t | 0 <= j < |v.ip| && 0 <= t < SLOTS ensures Addr(w, j, t) == (if j == i && t == s then b else Addr(v, j, t)) {
      SetAddrAt(v, i, s, b, j, t);
    }
    InstallOwnership(v, w, orph, i, s, b);
    forall j, k | 0 <= j < |v.ip| && 0 <= k < MAXFILE * BSIZE ensures ByteAt(w, j, k) == ByteAt(v, j, k) {
      SetAddrAt(v, i, s, b, j, SlotOf(k / BSIZE));
    }
  }

  /** a[e] = b in the indirect block. */
  function SetEntry(v: View, i: nat, e: nat, b: nat): View
    requires i < |v.ip| && e < NINDIRECT && v.ip[i].addrs[NDIRECT] < |v.blocks| && b < UINT_MAX_PLUS_1
  {
    View(v.sb, v.bitmap, v.blocks[v.ip[i].addrs[NDIRECT] := SetWord(v.blocks[v.ip[i].addrs[NDIRECT]], e, b)], v.ip)
  }

  /** Another inode's indirect block is another block. */
  lemma IndirectApart(v: View, orph: set<nat>, i: nat, j: nat)
    requires Ownership(v, orph) && i < |v.ip| && j < |v.ip| && i != j && v.ip[i].addrs[NDIRECT] != 0
    ensures v.ip[j].addrs[NDIRECT] != v.ip[i].addrs[NDIRECT]
  {
    assert ApartAt(v, i, NDIRECT, j, NDIRECT);
    assert Addr(v, i, NDIRECT) == v.ip[i].addrs[NDIRECT] && Addr(v, j, NDIRECT) == v.ip[j].addrs[NDIRECT];
  }

  lemma SetEntryAt(v: View, orph: set<nat>, i: nat, e: nat, b: nat, j: nat, t: nat)
    requires Ownership(v, orph) && i < |v.ip| && e < NINDIRECT && b < UINT_MAX_PLUS_1
    requires 0 < v.ip[i].addrs[NDIRECT] < |v.blocks| && j < |v.ip| && t < SLOTS
    ensures Addr(SetEntry(v, i, e, b), j, t) == (if j == i && t == e + NDIRECT + 1 then b else Addr(v, j, t))
  {
    hide Ownership;
    if j != i { IndirectApart(v, orph, i, j); }
    if j == i && t > NDIRECT {
      var d := t - NDIRECT - 1;
      if d == e { WordSame(v.blocks[v.ip[i].addrs[NDIRECT]], e, b); }
      else { WordOther(v.blocks[v.ip[i].addrs[NDIRECT]], e, b, d); }
    }
  }

  /** Blocks holding file data are not indirect blocks, and belong to one place of one file. */
  lemma DataApart(v: View, orph: set<nat>, i: nat, s: nat, j: nat, k: nat)
    requires Ownership(v, orph) && i < |v.ip| && s < SLOTS && j < |v.ip| && k < MAXFILE
    requires Addr(v, i, s) != 0 && (j != i || s != SlotOf(k))
    ensures Addr(v, j, SlotOf(k)) != Addr(v, i, s)
  {
    assert ApartAt(v, i, s, j, SlotOf(k));
  }

  lemma EntryInRange(v: View, orph: set<nat>, b: nat)
    requires Ownership(v, orph) && b in orph
    ensures 0 < b < |v.blocks| < UINT_MAX_PLUS_1
  {}

  lemma IndirectInRange(v: View, orph: set<nat>, i: nat)
    requires Ownership(v, orph) && i < |v.ip|
    ensures Addr(v, i, NDIRECT) == v.ip[i].addrs[NDIRECT] < |v.blocks|
  {
    assert AddrOk(v, orph, i, NDIRECT);
  }

  lemma SetEntryByte(v: View, orph: set<nat>, i: nat, e: nat, b: nat, j: nat, k: nat)
    requires Ownership(v, orph) && b in orph && i < |v.ip| && e < NINDIRECT && j < |v.ip| && k < MAXFILE * BSIZE
    requires 0 < v.ip[i].addrs[NDIRECT] < |v.blocks| && Addr(v, i, e + NDIRECT + 1) == 0
    requires b < UINT_MAX_PLUS_1 && b < |v.blocks| && v.blocks[b] == Zeros() && b != v.ip[i].addrs[NDIRECT]
    ensures ByteAt(SetEntry(v, i, e, b), j, k) == ByteAt(v, j, k)
  {
    hide Ownership;
    SetEntryAt(v, orph, i, e, b, j, SlotOf(k / BSIZE));
    IndirectInRange(v, orph, i);
    DataApart(v, orph, i, NDIRECT, j, k / BSIZE);
  }

  /** bmap's indirect branch: a fresh block installed as entry e changes no file. */
  lemma SetEntryOk(v: View, orph: set<nat>, i: nat, e: nat, b: nat)
    requires Ownership(v, orph) && b in orph && i < |v.ip| && e < NINDIRECT && b < UINT_MAX_PLUS_1 && b < |v.blocks|
    requires 0 < v.ip[i].addrs[NDIRECT] < |v.blocks| && Addr(v, i, e + NDIRECT + 1) == 0 && v.blocks[b] == Zeros()
    ensures Ownership(SetEntry(v, i, e, b), orph - {b}) && SameBytes(v, SetEntry(v, i, e, b))
    ensures MapsTo(v, SetEntry(v, i, e, b), i, e + NDIRECT + 1, b)
  {
    hide Ownership;
    var w := SetEntry(v, i, e, b);
    forall j, t | 0 <= j < |v.ip| && 0 <= t < SLOTS
      ensures Addr(w, j, t) == (if j == i && t == e + NDIRECT + 1 then b else Addr(v, j, t)) {
      SetEntryAt(v, orph, i, e, b, j, t);
    }
    InstallOwnership(v, w, orph, i, e + NDIRECT + 1, b);
    OrphanNotOwned(v, orph, b, i, NDIRECT);
    forall j, k | 0 <= j < |v.ip| && 0 <= k < MAXFILE * BSIZE ensures ByteAt(w, j, k) == ByteAt(v, j, k) {
      SetEntryByte(v, orph, i, e, b, j, k);
    }
  }

  lemma OrphanNotOwned(v: View, orph: set<nat>, b: nat, i: nat, s: nat)
    requires Ownership(v, orph) && b in orph && i < |v.ip| && s < SLOTS
    ensures Addr(v, i, s) != b && b != 0
  {
    assert AddrOk(v, orph, i, s);
  }

  // ---- Overwriting a data block ----

  function Stored(v: View, a: nat, blk: Blk): View
    requires a < |v.blocks|
  {
    View(v.sb, v.bitmap, v.blocks[a := blk], v.ip)
  }

  lemma StoredAt(v: View, orph: set<nat>, i: nat, bn: nat, blk: Blk, j: nat, t: nat)
    requires Ownership(v, orph) && i < |v.ip| && bn < MAXFILE && j < |v.ip| && t < SLOTS
    requires 0 < Addr(v, i, SlotOf(bn)) < |v.blocks|
    ensures Addr(Stored(v, Addr(v, i, SlotOf(bn)), blk), j, t) == Addr(v, j, t)
  {
    assert ApartAt(v, i, SlotOf(bn), j, NDIRECT);
    assert Addr(v, j, NDIRECT) == v.ip[j].addrs[NDIRECT];
    AddrStable(v, Stored(v, Addr(v, i, SlotOf(bn)), blk), j, t);
  }

  /** Byte k of file j once block bn of file i holds blk. */
  function Overwritten(v: View, i: nat, bn: nat, blk: Blk, j: nat, k: nat): Byte
    requires j < |v.ip| && k < MAXFILE * BSIZE
  {
    if j == i && k / BSIZE == bn then blk[k % BSIZE] else ByteAt(v, j, k)
  }

  /** Overwriting one file's data block keeps ownership and every other byte of every file. */
  lemma StoredOk(v: View, orph: set<nat>, i: nat, bn: nat, blk: Blk)
    requires Ownership(v, orph) && i < |v.ip| && bn < MAXFILE && 0 < Addr(v, i, SlotOf(bn)) < |v.blocks|
    ensures var w := Stored(v, Addr(v, i, SlotOf(bn)), blk);
      && Ownership(w, orph)
      && (forall j, t :: 0 <= j < |v.ip| && 0 <= t < SLOTS ==> Addr(w, j, t) == Addr(v, j, t))
      && (forall j, k :: 0 <= j < |v.ip| && 0 <= k < MAXFILE * BSIZE ==> ByteAt(w, j, k) == Overwritten(v, i, bn, blk, j, k))
  {
    hide Ownership;
    var w := Stored(v, Addr(v, i, SlotOf(bn)), blk);
    forall j, t | 0 <= j < |v.ip| && 0 <= t < SLOTS ensures Addr(w, j, t) == Addr(v, j, t) {
      StoredAt(v, orph, i, bn, blk, j, t);
    }
    SameAddrOwnership(v, w, orph);
    forall j, k | 0 <= j < |v.ip| && 0 <= k < MAXFILE * BSIZE ensures ByteAt(w, j, k) == Overwritten(v, i, bn, blk, j, k) {
      if j != i || k / BSIZE != bn { DataApart(v, orph, i, SlotOf(bn), j, k / BSIZE); }
    }
  }

  /** Ownership is a matter of the bitmap and the addresses only. */
  lemma SameAddrOwnership(v: View, w: View, orph: set<nat>)
    requires Ownership(v, orph) && w.sb == v.sb && w.bitmap == v.bitmap && |w.blocks| == |v.blocks| && |w.ip| == |v.ip|
    requires forall j, t :: 0 <= j < |v.ip| && 0 <= t < SLOTS ==> Addr(w, j, t) == Addr(v, j, t)
    ensures Ownership(w, orph)
  {
    forall j, t | 0 <= j < |w.ip| && 0 <= t < SLOTS ensures AddrOk(w, orph, j, t) { assert AddrOk(v, orph, j, t); }
    forall j, t, k, u | 0 <= j < |w.ip| && 0 <= t < SLOTS && 0 <= k < |w.ip| && 0 <= u < SLOTS ensures ApartAt(w, j, t, k, u) {
      assert ApartAt(v, j, t, k, u);
    }
    forall c | w.sb.datastart <= c < w.sb.size && w.bitmap[c] ensures c in orph || Owned(w, c) {
      if c !in orph {
        assert Owned(v, c);
        var j, t :| OwnedBy(v, c, j, t);
        assert OwnedBy(w, c, j, t);
      }
    }
  }

  // ---- Sizes ----

  function Resized(v: View, i: nat, size: nat): View
    requires i < |v.ip|
  {
    View(v.sb, v.bitmap, v.blocks, v.ip[i := Inode(size, v.ip[i].addrs)])
  }

  lemma ResizedOk(v: View, orph: set<nat>, i: nat, size: nat)
    requires Ownership(v, orph) && i < |v.ip|
    ensures Ownership(Resized(v, i, size), orph) && SameBytes(v, Resized(v, i, size))
    ensures forall j, t :: 0 <= j < |v.ip| && 0 <= t < SLOTS ==> Addr(Resized(v, i, size), j, t) == Addr(v, j, t)
  {
    SameAddrOwnership(v, Resized(v, i, size), orph);
  }

  // ---- Truncation ----

  /** The blocks an inode owns. */
  ghost predicate OwnedByInode(v: View, b: nat, i: nat) {
    exists s :: OwnedBy(v, b, i, s)
  }

  function NoAddrs(): Addrs { [0, 0, 0, 0, 0, 0, 0, 0, 0, 0, 0, 0, 0] }

  /** The inode emptied and its bits cleared: bm is the bitmap without exactly its blocks. */
  function Truncated(v: View, i: nat, bm: seq<bool>): View
    requires i < |v.ip|
  {
    View(v.sb, bm, v.blocks, v.ip[i := Inode(0, NoAddrs())])
  }

  ghost predicate Released(v: View, i: nat, bm: seq<bool>) {
    |bm| == |v.bitmap| && forall b :: 0 <= b < |bm| ==> bm[b] == (v.bitmap[b] && (b == 0 || !OwnedByInode(v, b, i)))
  }

  lemma TruncatedAt(v: View, i: nat, bm: seq<bool>, j: nat, t: nat)
    requires i < |v.ip| && j < |v.ip| && t < SLOTS
    ensures Addr(Truncated(v, i, bm), j, t) == (if j == i then 0 else Addr(v, j, t))
  {}

  lemma TruncatedAddrOk(v: View, i: nat, bm: seq<bool>, j: nat, t: nat)
    requires Ownership(v, {}) && i < |v.ip| && Released(v, i, bm) && j < |v.ip| && t < SLOTS
    ensures AddrOk(Truncated(v, i, bm), {}, j, t)
  {
    TruncatedAt(v, i, bm, j, t);
    assert AddrOk(v, {}, j, t);
    var a := Addr(v, j, t);
    if j != i && a != 0 {
      forall s: nat ensures !OwnedBy(v, a, i, s) { assert s < SLOTS ==> ApartAt(v, j, t, i, s); }
    }
  }

  /** itrunc keeps ownership: its blocks are free, every other file keeps its blocks. */
  lemma TruncatedOwnership(v: View, i: nat, bm: seq<bool>)
    requires Ownership(v, {}) && i < |v.ip| && Released(v, i, bm)
    ensures Ownership(Truncated(v, i, bm), {})
  {
    var w := Truncated(v, i, bm);
    forall j, t | 0 <= j < |w.ip| && 0 <= t < SLOTS ensures AddrOk(w, {}, j, t) { TruncatedAddrOk(v, i, bm, j, t); }
    forall j, t, k, u | 0 <= j < |w.ip| && 0 <= t < SLOTS && 0 <= k < |w.ip| && 0 <= u < SLOTS ensures ApartAt(w, j, t, k, u) {
      assert ApartAt(v, j, t, k, u);
      TruncatedAt(v, i, bm, j, t);
      TruncatedAt(v, i, bm, k, u);
    }
    forall c | w.sb.datastart <= c < w.sb.size && w.bitmap[c] ensures Owned(w, c) {
      assert Owned(v, c);
      var j, t :| OwnedBy(v, c, j, t);
      assert OwnedByInode(v, c, j);
      TruncatedAt(v, i, bm, j, t);
      assert OwnedBy(w, c, j, t);
    }
    forall c | 0 <= c < w.sb.datastart ensures w.bitmap[c] {
      if c != 0 { MetaNotOwned(v, c, i); }
    }
  }

  lemma MetaNotOwned(v: View, c: nat, i: nat)
    requires Ownership(v, {}) && i < |v.ip| && c < v.sb.datastart && c != 0
    ensures !OwnedByInode(v, c, i)
  {
    forall s: nat ensures !OwnedBy(v, c, i, s) { assert s < SLOTS ==> AddrOk(v, {}, i, s); }
  }

  /** itrunc leaves every other file's bytes as they were and the inode with none. */
  lemma TruncatedBytes(v: View, i: nat, bm: seq<bool>, j: nat, k: nat)
    requires i < |v.ip| && j < |v.ip| && k < MAXFILE * BSIZE
    ensures ByteAt(Truncated(v, i, bm), j, k) == (if j == i then 0 else ByteAt(v, j, k))
  {
    TruncatedAt(v, i, bm, j, SlotOf(k / BSIZE));
  }

  // ---- A new file system ----

  /** No file has a block and every data block is free, as on a freshly made disk without files. */
  lemma EmptyOk(sb: Super, blocks: seq<Blk>, ip: seq<Inode>, bitmap: seq<bool>)
    requires 0 < sb.datastart <= sb.size == |blocks| == |bitmap| < UINT_MAX_PLUS_1
    requires forall b :: 0 <= b < sb.size ==> bitmap[b] == (b < sb.datastart)
    requires forall i :: 0 <= i < |ip| ==> ip[i] == Inode(0, NoAddrs())
    ensures Ownership(View(sb, bitmap, blocks, ip), {}) && AllFilled(View(sb, bitmap, blocks, ip))
  {
    var v := View(sb, bitmap, blocks, ip);
    forall i, s | 0 <= i < |ip| && 0 <= s < SLOTS ensures Addr(v, i, s) == 0 { assert ip[i] == Inode(0, NoAddrs()); }
  }
}
