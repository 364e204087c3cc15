/** Disk blocks as byte strings, and the big-endian fields the kernel reads and writes in them. */
module Blocks {
  const NINDIR := 128
  const NICFREE := 50

  type Byte = x: int | 0 <= x < 256 witness 0

  type Block = b: seq<Byte> | |b| == 512 witness seq(512, i => 0)

  /** What clrbuf leaves in a buffer. */
  function Zero(): (b: Block)
    ensures forall k :: 0 <= k < 512 ==> b[k] == 0
  {
    seq(512, i => 0)
  }

  /** The j-th byte, most significant first, of a 32-bit field. */
  function Octet(v: nat, j: nat): (r: Byte)
    requires v < 0x1_0000_0000 && j < 4
  {
    if j == 0 then v / 0x100_0000
    else if j == 1 then v / 0x1_0000 % 256
    else if j == 2 then v / 0x100 % 256
    else v % 256
  }

  function Long(b: Block, o: nat): (v: nat)
    requires o + 4 <= 512
    ensures v < 0x1_0000_0000
  {
    b[o] as int * 0x100_0000 + b[o + 1] as int * 0x1_0000 + b[o + 2] as int * 0x100 + b[o + 3] as int
  }

  function PutLong(b: Block, o: nat, v: nat): (r: Block)
    requires o + 4 <= 512 && v < 0x1_0000_0000
    ensures forall k :: 0 <= k < 512 && !(o <= k < o + 4) ==> r[k] == b[k]
    ensures forall j :: 0 <= j < 4 ==> r[o + j] == Octet(v, j)
  {
    b[..o] + [Octet(v, 0), Octet(v, 1), Octet(v, 2), Octet(v, 3)] + b[o + 4..]
  }

  lemma OctetsSum(v: nat)
    requires v < 0x1_0000_0000
    ensures Octet(v, 0) as int * 0x100_0000 + Octet(v, 1) as int * 0x1_0000 + Octet(v, 2) as int * 0x100 + Octet(v, 3) as int == v
  {
    assert v / 0x1_0000 == (v / 0x100) / 256;
    assert v / 0x100_0000 == (v / 0x1_0000) / 256;
  }

  /** Entry i of an indirect block (`bap[i]` in bmap and tloop). */
  function Addr(b: Block, i: nat): (a: nat)
    requires i < NINDIR
    ensures a < 0x1_0000_0000
  {
    Long(b, 4 * i)
  }

  function PutAddr(b: Block, i: nat, v: nat): Block
    requires i < NINDIR && v < 0x1_0000_0000
  {
    PutLong(b, 4 * i, v)
  }

  lemma AddrOfPut(b: Block, i: nat, v: nat, k: nat)
    requires i < NINDIR && k < NINDIR && v < 0x1_0000_0000
    ensures Addr(PutAddr(b, i, v), k) == if k == i then v else Addr(b, k)
  {
    OctetsSum(v);
    var r := PutAddr(b, i, v);
    if k == i {
      assert r[4 * i + 0] == Octet(v, 0) && r[4 * i + 1] == Octet(v, 1);
      assert r[4 * i + 2] == Octet(v, 2) && r[4 * i + 3] == Octet(v, 3);
    }
  }

  /** The bytes of an index block's entry, most significant first. */
  lemma AddrLayout(b: Block, i: nat, v: nat)
    requires i < NINDIR && v < 0x1_0000_0000
    ensures var r := PutAddr(b, i, v);
      && r[4 * i] == v / 0x100_0000 && r[4 * i + 1] == v / 0x1_0000 % 256 && r[4 * i + 2] == v / 0x100 % 256 && r[4 * i + 3] == v % 256
      && forall k :: 0 <= k < 512 && !(4 * i <= k < 4 * i + 4) ==> r[k] == b[k]
    ensures Addr(b, i) == ((b[4 * i] as int * 256 + b[4 * i + 1] as int) * 256 + b[4 * i + 2] as int) * 256 + b[4 * i + 3] as int
  {
    var r := PutAddr(b, i, v);
    assert r[4 * i + 0] == Octet(v, 0) && r[4 * i + 1] == Octet(v, 1) && r[4 * i + 2] == Octet(v, 2) && r[4 * i + 3] == Octet(v, 3);
  }

  lemma AddrOfZero(k: nat)
    requires k < NINDIR
    ensures Addr(Zero(), k) == 0
  {
  }

  /** `df_nfree` of a free-list link block. */
  function LinkCount(b: Block): (n: nat)
    ensures n < 0x1_0000
  {
    b[0] as int * 256 + b[1] as int
  }

  /** `df_free` of a free-list link block: NICFREE packed addresses starting at offset 2. */
  function LinkFree(b: Block): (f: seq<nat>)
    ensures Addresses(f)
  {
    seq(NICFREE, i requires 0 <= i < NICFREE => Long(b, 2 + 4 * i))
  }

  ghost predicate Addresses(f: seq<nat>) {
    |f| == NICFREE && forall i :: 0 <= i < NICFREE ==> f[i] < 0x1_0000_0000
  }

  /** The link block `free` writes: the count and the table; the other bytes of the buffer stay. */
  function PutLink(b: Block, n: nat, f: seq<nat>): Block
    requires n < 0x1_0000 && Addresses(f)
  {
    seq(512, k requires 0 <= k < 512 =>
      if k == 0 then n / 256 else if k == 1 then n % 256
      else if k < 202 then Octet(f[(k - 2) / 4], (k - 2) % 4) else b[k])
  }

  /** The bytes of a link block: the count in two, then fifty numbers of four, most significant first; the rest stays. */
  lemma LinkLayout(b: Block, n: nat, f: seq<nat>, i: nat)
    requires n < 0x1_0000 && Addresses(f) && i < NICFREE
    ensures var r, o := PutLink(b, n, f), 2 + 4 * i;
      && r[0] == n / 256 && r[1] == n % 256
      && r[o] == f[i] / 0x100_0000 && r[o + 1] == f[i] / 0x1_0000 % 256 && r[o + 2] == f[i] / 0x100 % 256 && r[o + 3] == f[i] % 256
      && forall k :: 202 <= k < 512 ==> r[k] == b[k]
  {
    LinkByte(b, n, f, i, 0);
    LinkByte(b, n, f, i, 1);
    LinkByte(b, n, f, i, 2);
    LinkByte(b, n, f, i, 3);
  }

  lemma LinkRoundTrip(b: Block, n: nat, f: seq<nat>)
    requires n < 0x1_0000 && Addresses(f)
    ensures LinkCount(PutLink(b, n, f)) == n
    ensures LinkFree(PutLink(b, n, f)) == f
  {
    var r := PutLink(b, n, f);
    assert r[0] == n / 256 && r[1] == n % 256;
    assert |LinkFree(r)| == |f|;
    forall i | 0 <= i < NICFREE
      ensures LinkFree(r)[i] == f[i]
      ensures Long(r, 2 + 4 * i) == f[i]
    {
      LinkEntry(b, n, f, i);
    }
  }

  lemma LinkEntry(b: Block, n: nat, f: seq<nat>, i: nat)
    requires n < 0x1_0000 && Addresses(f) && i < NICFREE
    ensures Long(PutLink(b, n, f), 2 + 4 * i) == f[i]
  {
    hide PutLink, Octet;
    OctetsSum(f[i]);
    LinkByte(b, n, f, i, 0);
    LinkByte(b, n, f, i, 1);
    LinkByte(b, n, f, i, 2);
    LinkByte(b, n, f, i, 3);
  }

  lemma LinkByte(b: Block, n: nat, f: seq<nat>, i: nat, j: nat)
    requires n < 0x1_0000 && Addresses(f) && i < NICFREE && j < 4
    ensures PutLink(b, n, f)[2 + 4 * i + j] == Octet(f[i], j)
  {
    var k := 2 + 4 * i + j;
    assert (k - 2) / 4 == i && (k - 2) % 4 == j;
  }
}
