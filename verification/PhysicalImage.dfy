/** The flat physical memory image (`system.physmem.store0.pmem`): a byte file that is written by
    seeking and overwriting, in an order that matters. */
module PhysicalImage {
  import opened Basics

  /** One `seek(pos)` followed by one `write(buf)`. */
  datatype Write = Write(pos: nat, buf: seq<byte>)

  function Zeros(n: nat): seq<byte> {
    seq(n, _ => 0)
  }

  /** The byte seen at an offset of the file; past the end there is nothing but zeros. */
  function ByteAt(data: seq<byte>, a: nat): byte {
    if a < |data| then data[a] else 0
  }

  predicate Covers(w: Write, a: nat) {
    w.pos <= a < w.pos + |w.buf|
  }

  /** POSIX write: a gap between the old end and the position is filled with zeros,
      an empty buffer does not touch the file. */
  function Overlay(data: seq<byte>, w: Write): seq<byte> {
    if w.buf == [] then data
    else
      var padded := if |data| < w.pos then data + Zeros(w.pos - |data|) else data;
      var end := w.pos + |w.buf|;
      padded[..w.pos] + w.buf + (if end < |padded| then padded[end..] else [])
  }

  lemma OverlayByte(data: seq<byte>, w: Write, a: nat)
    ensures ByteAt(Overlay(data, w), a) == if Covers(w, a) then w.buf[a - w.pos] else ByteAt(data, a)
  {
  }

  /** The file after a whole journal of writes. */
  function Replay(data: seq<byte>, journal: seq<Write>): seq<byte> {
    if journal == [] then data
    else Overlay(Replay(data, journal[..|journal| - 1]), journal[|journal| - 1])
  }

  /** What a journal leaves at one address that held `b` before: the last covering write wins. */
  function Effect(journal: seq<Write>, a: nat, b: byte): byte {
    if journal == [] then b
    else
      var w := journal[|journal| - 1];
      if Covers(w, a) then w.buf[a - w.pos] else Effect(journal[..|journal| - 1], a, b)
  }

  lemma {:induction false} ReplayByte(data: seq<byte>, journal: seq<Write>, a: nat)
    ensures ByteAt(Replay(data, journal), a) == Effect(journal, a, ByteAt(data, a))
  {
    if journal != [] {
      var front := journal[..|journal| - 1];
      ReplayByte(data, front, a);
      OverlayByte(Replay(data, front), journal[|journal| - 1], a);
    }
  }

  lemma {:induction false} ReplayAppend(data: seq<byte>, j1: seq<Write>, j2: seq<Write>)
    ensures Replay(data, j1 + j2) == Replay(Replay(data, j1), j2)
  {
    if j2 == [] {
      assert j1 + j2 == j1;
    } else {
      var front := j2[..|j2| - 1];
      assert (j1 + j2)[..|j1 + j2| - 1] == j1 + front;
      ReplayAppend(data, j1, front);
    }
  }

  lemma {:induction false} EffectAppend(j1: seq<Write>, j2: seq<Write>, a: nat, b: byte)
    ensures Effect(j1 + j2, a, b) == Effect(j2, a, Effect(j1, a, b))
  {
    if j2 == [] {
      assert j1 + j2 == j1;
    } else {
      var front := j2[..|j2| - 1];
      assert (j1 + j2)[..|j1 + j2| - 1] == j1 + front;
      EffectAppend(j1, front, a, b);
    }
  }

  lemma {:induction false} EffectUncovered(journal: seq<Write>, a: nat, b: byte)
    requires forall w :: w in journal ==> !Covers(w, a)
    ensures Effect(journal, a, b) == b
  {
    if journal != [] {
      assert journal[|journal| - 1] in journal;
      EffectUncovered(journal[..|journal| - 1], a, b);
    }
  }

  /** The size of the file after a journal that stays inside it. */
  lemma {:induction false} ReplayKeepsSize(data: seq<byte>, journal: seq<Write>)
    requires forall w :: w in journal ==> w.pos + |w.buf| <= |data|
    ensures |Replay(data, journal)| == |data|
  {
    if journal != [] {
      assert journal[|journal| - 1] in journal;
      ReplayKeepsSize(data, journal[..|journal| - 1]);
    }
  }

  /** The journal with every position moved up by `base`. */
  function Shifted(journal: seq<Write>, base: nat): seq<Write> {
    seq(|journal|, i requires 0 <= i < |journal| => Write(journal[i].pos + base, journal[i].buf))
  }

  lemma {:induction false} EffectShifted(journal: seq<Write>, base: nat, a: nat, b: byte)
    ensures Effect(Shifted(journal, base), base + a, b) == Effect(journal, a, b)
  {
    if journal != [] {
      var front := journal[..|journal| - 1];
      assert Shifted(journal, base)[..|journal| - 1] == Shifted(front, base);
      EffectShifted(front, base, a, b);
    }
  }

  /** The open image file: its bytes and the file position. */
  class PmemFile {
    var data: seq<byte>
    var pos: nat

    /** Opened with mode 'wb': empty. */
    constructor ()
      ensures data == [] && pos == 0
    {
      data, pos := [], 0;
    }

    method Truncate(size: nat)
      modifies this
      ensures data == if size <= |old(data)| then old(data)[..size] else old(data) + Zeros(size - |old(data)|)
      ensures pos == old(pos)
    {
      data := if size <= |data| then data[..size] else data + Zeros(size - |data|);
    }

    method Seek(p: nat)
      modifies this
      ensures pos == p && data == old(data)
    {
      pos := p;
    }

    method Put(buf: seq<byte>)
      modifies this
      ensures data == Overlay(old(data), Write(old(pos), buf))
      ensures pos == old(pos) + |buf|
    {
      data := Overlay(data, Write(pos, buf));
      pos := pos + |buf|;
    }
  }
}
