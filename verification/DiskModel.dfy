/** The disk as `memide.c` presents it: an array of fixed-size blocks, written one whole block at a time. */
module DiskModel {

  // A block is 512 bytes, seen here as the 128 words the log header is made of.

  type Block = b: seq<int> | |b| == 128 witness seq(128, _ => 0)

  type Image = seq<Block>

  /** One call of iderw on a dirty buffer: the only way the disk ever changes. */
  datatype Write = Write(bno: nat, data: Block)

  predicate InRange(d: Image, ws: seq<Write>) {
    forall i :: 0 <= i < |ws| ==> ws[i].bno < |d|
  }

  /** The disk after the writes `ws`, in order. */
  function Apply(d: Image, ws: seq<Write>): (r: Image)
    requires InRange(d, ws)
    ensures |r| == |d|
    ensures forall b :: 0 <= b < |d| && (forall i :: 0 <= i < |ws| ==> ws[i].bno != b) ==> r[b] == d[b]
    decreases |ws|
  {
    if ws == [] then d else
    assert InRange(d[ws[0].bno := ws[0].data], ws[1..]);
    Apply(d[ws[0].bno := ws[0].data], ws[1..])
  }

  lemma {:induction false} ApplyAppend(d: Image, a: seq<Write>, b: seq<Write>)
    requires InRange(d, a) && InRange(d, b)
    ensures InRange(d, a + b)
    ensures Apply(d, a + b) == Apply(Apply(d, a), b)
    decreases |a|
  {
    if a == [] {
      assert a + b == b;
    } else {
      var d' := d[a[0].bno := a[0].data];
      assert (a + b)[1..] == a[1..] + b;
      ApplyAppend(d', a[1..], b);
    }
  }

  lemma ApplyOne(d: Image, w: Write)
    requires w.bno < |d|
    ensures Apply(d, [w]) == d[w.bno := w.data]
  {
    assert [w][1..] == [];
  }

  /** One more write of the sequence: the disk after k + 1 writes from the disk after k. */
  lemma ApplyNext(d: Image, ws: seq<Write>, k: nat)
    requires k < |ws| && InRange(d, ws[..k]) && ws[k].bno < |d|
    ensures InRange(d, ws[..k + 1])
    ensures Apply(d, ws[..k + 1]) == Apply(d, ws[..k])[ws[k].bno := ws[k].data]
  {
    assert ws[..k + 1] == ws[..k] + [ws[k]];
    ApplyAppend(d, ws[..k], [ws[k]]);
    ApplyOne(Apply(d, ws[..k]), ws[k]);
  }
}
