/** The inode content layer of `fs.c` as a value: free bitmap, data blocks and inodes, who owns
    which block, and the bytes each file holds. */
module FsState {

  const BSIZE := 512
  const NDIRECT := 12
  const NINDIRECT := 128
  const MAXFILE := 140
  const BPB := 4096
  const IPB := 8
  const UINT_MAX_PLUS_1 := 0x1_0000_0000

  type Byte = x: int | 0 <= x < 256

  type Blk = b: seq<Byte> | |b| == 512 witness seq(512, _ => 0)

  type Addrs = a: seq<nat> | |a| == 13 witness seq(13, _ => 0)

  function Zeros(): Blk { seq(512, (i: int) => 0 as Byte) }

  datatype Super = Super(size: nat, inodestart: nat, bmapstart: nat, datastart: nat)

  datatype Inode = Inode(size: nat, addrs: Addrs)

  /** `ip` are the inodes as the kernel currently sees them. */
  datatype View = View(sb: Super, bitmap: seq<bool>, blocks: seq<Blk>, ip: seq<Inode>)

  // ---- Words of an indirect block ----

  /** a[j] of a block read as uint[]: four bytes, least significant first. */
  function GetWord(b: Blk, j: nat): nat
    requires j < NINDIRECT
  {
    (b[4 * j] as int) + 256 * (b[4 * j + 1] as int) + 65536 * (b[4 * j + 2] as int) + 16777216 * (b[4 * j + 3] as int)
  }

  function SetWord(b: Blk, j: nat, x: nat): Blk
    requires j < NINDIRECT && x < UINT_MAX_PLUS_1
  {
    b[4 * j := x % 256][4 * j + 1 := x / 256 % 256][4 * j + 2 := x / 65536 % 256][4 * j + 3 := x / 16777216]
  }

  lemma WordSame(b: Blk, j: nat, x: nat)
    requires j < NINDIRECT && x < UINT_MAX_PLUS_1
    ensures GetWord(SetWord(b, j, x), j) == x
  {
    BytesOf(x);
  }

  lemma BytesOf(x: nat)
    ensures x == x % 256 + 256 * (x / 256 % 256) + 65536 * (x / 65536 % 256) + 16777216 * (x / 16777216)
  {
    var a := x / 256;
    var b := a / 256;
    assert x == 256 * a + x % 256;
    assert a == 256 * b + a % 256;
    assert b == x / 65536 && b == 256 * (b / 256) + b % 256;
    assert b / 256 == x / 16777216;
  }

  lemma WordOther(b: Blk, j: nat, x: nat, k: nat)
    requires j < NINDIRECT && k < NINDIRECT && j != k && x < UINT_MAX_PLUS_1
    ensures GetWord(SetWord(b, j, x), k) == GetWord(b, k)
  {}

  // ---- Addresses ----

  /** Slots of an inode: 0..11 direct blocks, 12 the indirect block, 13..140 its entries. */
  const SLOTS := 141

  /** The slot of file block bn, following bmap. */
  function SlotOf(bn: nat): nat { if bn < NDIRECT then bn else bn + 1 }

  /** Entry j of the indirect block ind; 0 when there is no such block. */
  function Entry(blocks: seq<Blk>, ind: nat, j: nat): nat
    requires j < NINDIRECT
  {
    if ind == 0 || ind >= |blocks| then 0 else GetWord(blocks[ind], j)
  }

  /** The block number a slot holds; 0 when none. */
  function Addr(v: View, i: nat, s: nat): nat
    requires i < |v.ip| && s < SLOTS
  {
    if s <= NDIRECT then v.ip[i].addrs[s]
    else Entry(v.blocks, v.ip[i].addrs[NDIRECT], s - NDIRECT - 1)
  }

  predicate Shape(v: View) {
    && |v.bitmap| == |v.blocks| == v.sb.size < UINT_MAX_PLUS_1
    && 0 < v.sb.datastart <= v.sb.size
  }

  /** An address is a data block marked in use. `orph` are blocks allocated and not yet installed. */
  ghost predicate AddrOk(v: View, orph: set<nat>, i: nat, s: nat)
    requires Shape(v) && i < |v.ip| && s < SLOTS
  {
    Addr(v, i, s) == 0 || (v.sb.datastart <= Addr(v, i, s) < v.sb.size && v.bitmap[Addr(v, i, s)] && Addr(v, i, s) !in orph)
  }

  /** Two different slots never hold the same block. */
  predicate ApartAt(v: View, i: nat, s: nat, j: nat, t: nat)
    requires i < |v.ip| && s < SLOTS && j < |v.ip| && t < SLOTS
  {
    (i != j || s != t) && Addr(v, i, s) != 0 ==> Addr(v, i, s) != Addr(v, j, t)
  }

  predicate OwnedBy(v: View, b: nat, i: nat, s: nat) {
    i < |v.ip| && s < SLOTS && Addr(v, i, s) == b
  }

  ghost predicate Owned(v: View, b: nat) {
    exists i, s :: OwnedBy(v, b, i, s)
  }

  /** Block ownership: a bit is set exactly for metadata, orphans and blocks owned by one slot. */
  ghost predicate Ownership(v: View, orph: set<nat>) {
    && Shape(v)
    && (forall i, s :: 0 <= i < |v.ip| && 0 <= s < SLOTS ==> AddrOk(v, orph, i, s))
    && (forall i, s, j, t :: 0 <= i < |v.ip| && 0 <= s < SLOTS && 0 <= j < |v.ip| && 0 <= t < SLOTS ==> ApartAt(v, i, s, j, t))
    && (forall b :: 0 <= b < v.sb.datastart ==> v.bitmap[b])
    && (forall b :: v.sb.datastart <= b < v.sb.size && v.bitmap[b] ==> b in orph || Owned(v, b))
    && (forall b :: b in orph ==> v.sb.datastart <= b < v.sb.size && v.bitmap[b])
  }

  // ---- File contents ----

  function ByteIn(blocks: seq<Blk>, a: nat, o: nat): Byte
    requires o < BSIZE
  {
    if a == 0 || a >= |blocks| then 0 else blocks[a][o]
  }

  /** Byte k of file i, zero where no block is allocated. */
  function ByteAt(v: View, i: nat, k: nat): Byte
    requires i < |v.ip| && k < MAXFILE * BSIZE
  {
    ByteIn(v.blocks, Addr(v, i, SlotOf(k / BSIZE)), k % BSIZE)
  }

  /** Every file reads the same in both. */
  ghost predicate SameBytes(v: View, w: View) {
    |w.ip| == |v.ip| && forall i, k :: 0 <= i < |v.ip| && 0 <= k < MAXFILE * BSIZE ==> ByteAt(w, i, k) == ByteAt(v, i, k)
  }

  /** The file's contents: its first `size` bytes. */
  ghost function Content(v: View, i: nat): seq<Byte>
    requires i < |v.ip| && v.ip[i].size <= MAXFILE * BSIZE
  {
    seq(v.ip[i].size, k requires 0 <= k < v.ip[i].size => ByteAt(v, i, k))
  }

  /** File blocks needed for `size` bytes. */
  function BlocksFor(size: nat): nat { (size + BSIZE - 1) / BSIZE }

  /** No holes: every block below the size is allocated. */
  ghost predicate Filled(v: View, i: nat, size: nat)
    requires i < |v.ip|
  {
    size <= MAXFILE * BSIZE && forall bn :: 0 <= bn < BlocksFor(size) ==> Addr(v, i, SlotOf(bn)) != 0
  }

  ghost predicate AllFilled(v: View) {
    forall i :: 0 <= i < |v.ip| ==> Filled(v, i, v.ip[i].size)
  }

  // ---- Allocation ----

  /** balloc's effect: the bit set, the block zeroed. */
  function Allocated(v: View, b: nat): View
    requires b < |v.bitmap| && b < |v.blocks|
  {
    View(v.sb, v.bitmap[b := true], v.blocks[b := Zeros()], v.ip)
  }

  /** A block that is not some inode's indirect block may change without moving any address. */
  lemma AddrStable(v: View, w: View, i: nat, s: nat)
    requires i < |v.ip| && s < SLOTS && w.ip == v.ip && |w.blocks| == |v.blocks|
    requires v.ip[i].addrs[NDIRECT] < |v.blocks| ==> w.blocks[v.ip[i].addrs[NDIRECT]] == v.blocks[v.ip[i].addrs[NDIRECT]]
    ensures Addr(w, i, s) == Addr(v, i, s)
  {}

  lemma AllocAddr(v: View, orph: set<nat>, b: nat, i: nat, s: nat)
    requires Ownership(v, orph) && b < v.sb.size && !v.bitmap[b] && i < |v.ip| && s < SLOTS
    ensures Addr(Allocated(v, b), i, s) == Addr(v, i, s) && Addr(v, i, s) != b
  {
    assert AddrOk(v, orph, i, NDIRECT) && AddrOk(v, orph, i, s);
    assert Addr(v, i, NDIRECT) == v.ip[i].addrs[NDIRECT];
    assert v.bitmap[0];
    if v.ip[i].addrs[NDIRECT] != 0 { AddrStable(v, Allocated(v, b), i, s); }
  }

  /** balloc keeps ownership, with the new block an orphan, and changes no file. */
  lemma AllocOk(v: View, orph: set<nat>, b: nat)
    requires Ownership(v, orph) && b < v.sb.size && !v.bitmap[b]
    ensures b >= v.sb.datastart && b !in orph
    ensures Ownership(Allocated(v, b), orph + {b}) && SameBytes(v, Allocated(v, b))
  {
    var w := Allocated(v, b);
    forall i, s | 0 <= i < |v.ip| && 0 <= s < SLOTS ensures AddrOk(w, orph + {b}, i, s) && Addr(w, i, s) == Addr(v, i, s) {
      AllocAddr(v, orph, b, i, s);
      assert AddrOk(v, orph, i, s);
    }
    forall i, s, j, t | 0 <= i < |v.ip| && 0 <= s < SLOTS && 0 <= j < |v.ip| && 0 <= t < SLOTS ensures ApartAt(w, i, s, j, t) {
      assert ApartAt(v, i, s, j, t);
      AllocAddr(v, orph, b, i, s);
      AllocAddr(v, orph, b, j, t);
    }
    forall c | w.sb.datastart <= c < w.sb.size && w.bitmap[c] && c != b ensures c in orph || Owned(w, c) {
      if c !in orph {
        assert Owned(v, c);
        var i, s :| OwnedBy(v, c, i, s);
        AllocAddr(v, orph, b, i, s);
        assert OwnedBy(w, c, i, s);
      }
    }
    forall i, k | 0 <= i < |v.ip| && 0 <= k < MAXFILE * BSIZE ensures ByteAt(w, i, k) == ByteAt(v, i, k) {
      AllocAddr(v, orph, b, i, SlotOf(k / BSIZE));
    }
  }
}
