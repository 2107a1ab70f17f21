/** How file offsets map to objects, and what the objects must hold for the striped file to
    be a given flat sequence of bytes.
 */
module Extents {
  import opened Wrappers
  import opened Rados
  import opened OsdRuns
  import opened PoolIO

  /** `len` bytes at `off` within object number `obj`. */
  datatype Extent = Extent(obj: nat, off: nat, len: nat)

  function NextExtent(off: nat, len: nat): (e: Extent)
    ensures e.obj * OBJECT_SIZE + e.off == off
    ensures e.off + e.len <= OBJECT_SIZE && e.len <= len
    ensures len > 0 ==> e.len > 0
    ensures e.len < len ==> (off + e.len) % OBJECT_SIZE == 0
  {
    var o := off % OBJECT_SIZE;
    Extent(off / OBJECT_SIZE, o, if len < OBJECT_SIZE - o then len else OBJECT_SIZE - o)
  }

  /** The byte the file will hold at position `p` once all queued requests are applied. */
  function ByteAt(s: Osd, p: nat): Option<byte> {
    var d := View(s, p / OBJECT_SIZE);
    if d.Some? && p % OBJECT_SIZE < |d.value| then Some(d.value[p % OBJECT_SIZE]) else None
  }

  ghost predicate Represents(s: Osd, flat: seq<byte>) {
    forall p: nat :: p < |flat| ==> ByteAt(s, p) == Some(flat[p])
  }

  function FlatWrite(flat: seq<byte>, off: nat, bytes: seq<byte>): (r: seq<byte>)
    requires off <= |flat|
    ensures |r| == if |flat| < off + |bytes| then off + |bytes| else |flat|
    ensures forall i :: 0 <= i < |r| ==> r[i] == if off <= i < off + |bytes| then bytes[i - off] else flat[i]
  {
    flat[..off] + bytes + if off + |bytes| < |flat| then flat[off + |bytes|..] else []
  }

  lemma Locate(k: nat, o: nat)
    requires o < OBJECT_SIZE
    ensures (k * OBJECT_SIZE + o) / OBJECT_SIZE == k && (k * OBJECT_SIZE + o) % OBJECT_SIZE == o
  {
  }

  /** A write request on one extent is a write on the flat file. */
  lemma SubmitWrite(s: Osd, flat: seq<byte>, p: nat, bytes: seq<byte>)
    requires Represents(s, flat) && p <= |flat|
    requires p % OBJECT_SIZE + |bytes| <= OBJECT_SIZE
    ensures Represents(Submit(s, p / OBJECT_SIZE, Write(p % OBJECT_SIZE, bytes)), FlatWrite(flat, p, bytes))
  {
    var t, f := Submit(s, p / OBJECT_SIZE, Write(p % OBJECT_SIZE, bytes)), FlatWrite(flat, p, bytes);
    forall q: nat | q < |f| ensures ByteAt(t, q) == Some(f[q]) {
      if q < |flat| { assert ByteAt(s, q) == Some(flat[q]); }
      WrittenByte(s, p, bytes, q);
    }
  }

  /** A write request decides the bytes it covers and leaves the other stored bytes alone. */
  lemma WrittenByte(s: Osd, p: nat, bytes: seq<byte>, q: nat)
    requires p % OBJECT_SIZE + |bytes| <= OBJECT_SIZE
    ensures
      var t := Submit(s, p / OBJECT_SIZE, Write(p % OBJECT_SIZE, bytes));
      if p <= q < p + |bytes| then ByteAt(t, q) == Some(bytes[q - p])
      else ByteAt(s, q).Some? ==> ByteAt(t, q) == ByteAt(s, q)
  {
    hide View, WriteAt, Submit;
    var k, o := p / OBJECT_SIZE, p % OBJECT_SIZE;
    var l, i := q / OBJECT_SIZE, q % OBJECT_SIZE;
    assert p == k * OBJECT_SIZE + o && q == l * OBJECT_SIZE + i;
    SubmitView(s, k, Write(o, bytes));
    var t := Submit(s, k, Write(o, bytes));
    if l == k {
      assert p <= q < p + |bytes| <==> o <= i < o + |bytes|;
      assert View(t, k) == Some(WriteAt(View(s, k), o, bytes));
      if o <= i < o + |bytes| {
        assert WriteAt(View(s, k), o, bytes)[o + (i - o)] == bytes[i - o];
      }
    } else {
      assert !(p <= q < p + |bytes|);
      assert View(t, l) == View(s, l);
    }
  }

  /** Removing an object at or beyond the end of the file does not show. */
  lemma SubmitRemove(s: Osd, flat: seq<byte>, k: nat)
    requires Represents(s, flat) && |flat| <= k * OBJECT_SIZE
    ensures Represents(Submit(s, k, Remove), flat)
  {
    SubmitView(s, k, Remove);
    forall p: nat | p < |flat| ensures ByteAt(Submit(s, k, Remove), p) == Some(flat[p]) {
      assert ByteAt(s, p) == Some(flat[p]);
      assert p / OBJECT_SIZE != k;
    }
  }

  lemma SubmitMeta(s: Osd, flat: seq<byte>, op: Op)
    requires Represents(s, flat) && op.SetMeta?
    ensures Represents(Submit(s, 0, op), flat)
  {
    SubmitView(s, 0, op);
    forall p: nat | p < |flat| ensures ByteAt(Submit(s, 0, op), p) == Some(flat[p]) {
      assert ByteAt(s, p) == Some(flat[p]);
    }
  }

  lemma EvolvesRepresents(a: Osd, b: Osd, flat: seq<byte>)
    requires Evolves(a, b) && b.clean && Represents(a, flat)
    ensures Represents(b, flat)
  {
    forall p: nat | p < |flat| ensures ByteAt(b, p) == Some(flat[p]) {
      assert ByteAt(a, p) == Some(flat[p]);
    }
  }

  // ----- reads

  /** What the read loop delivers: the buffers of the extents, one after the other, each as
      long as its object allows. */
  function ReadBytes(s: Osd, off: nat, len: nat): seq<byte>
    decreases len
  {
    if len == 0 then [] else
      var e := NextExtent(off, len);
      ExtentBytes(s, e) + ReadBytes(s, off + e.len, len - e.len)
  }

  function ExtentList(off: nat, len: nat): seq<Extent>
    decreases len
  {
    if len == 0 then [] else
      var e := NextExtent(off, len);
      [e] + ExtentList(off + e.len, len - e.len)
  }

  function ListBytes(s: Osd, es: seq<Extent>): seq<byte> {
    if es == [] then [] else ExtentBytes(s, es[0]) + ListBytes(s, es[1..])
  }

  lemma {:induction false} ListIsRead(s: Osd, off: nat, len: nat)
    ensures ListBytes(s, ExtentList(off, len)) == ReadBytes(s, off, len)
    decreases len
  {
    if len > 0 {
      var e := NextExtent(off, len);
      assert ExtentList(off, len)[1..] == ExtentList(off + e.len, len - e.len);
      ListIsRead(s, off + e.len, len - e.len);
    }
  }

  lemma {:induction false} ListSnoc(s: Osd, es: seq<Extent>, e: Extent)
    ensures ListBytes(s, es + [e]) == ListBytes(s, es) + ExtentBytes(s, e)
  {
    if es == [] {
      assert es + [e] == [e] && [e][1..] == [];
    } else {
      assert (es + [e])[1..] == es[1..] + [e];
      ListSnoc(s, es[1..], e);
    }
  }

  /** Nothing is queued on the objects of `es`. */
  ghost predicate Drained(s: Osd, es: seq<Extent>) {
    forall i :: 0 <= i < |es| ==> Queue(s, es[i].obj) == []
  }

  lemma {:induction false} ListEvolves(a: Osd, b: Osd, es: seq<Extent>)
    requires Drained(a, es) && KeepsRequests(a, b)
    ensures Drained(b, es) && ListBytes(b, es) == ListBytes(a, es)
  {
    if es != [] {
      assert Queue(a, es[0].obj) == [] && Queue(b, es[0].obj) == [];
      assert forall i :: 0 <= i < |es[1..]| ==> es[1..][i] == es[i + 1];
      ListEvolves(a, b, es[1..]);
    }
  }

  // ----- durability

  /** The flat content and its size are on the OSDs, and nothing that is still queued can
      change them. */
  ghost predicate Durable(s: Osd, flat: seq<byte>) {
    && s.meta.size == |flat| && MetaQuiet(s)
    && forall p: nat :: p < |flat| ==> Queue(s, p / OBJECT_SIZE) == [] && ByteAt(s, p) == Some(flat[p])
  }

  lemma DurableEvolves(a: Osd, b: Osd, flat: seq<byte>)
    requires Durable(a, flat) && Evolves(a, b)
    ensures Durable(b, flat)
  {
    forall p: nat | p < |flat| ensures Queue(b, p / OBJECT_SIZE) == [] && ByteAt(b, p) == Some(flat[p]) {
      assert Queue(a, p / OBJECT_SIZE) == [] && ByteAt(a, p) == Some(flat[p]);
    }
  }

  /** What is durable survives a crash, whatever becomes of the requests in flight. */
  lemma {:induction false} DurableSurvivesCrash(s: Osd, flat: seq<byte>, run: seq<Served>)
    requires WellFormed(s) && Durable(s, flat) && LegalRun(s, run)
    ensures Durable(RunEnd(s, run), flat) && Represents(RunEnd(s, run), flat)
    decreases |run|
  {
    hide Durable, Evolves;
    if run == [] {
      DurableRepresents(s, flat);
    } else {
      var t := Serve(s, run[0].obj, run[0].fault);
      ServeEvolves(s, run[0].obj, run[0].fault);
      ServeKeepsWellFormed(s, run[0].obj, run[0].fault);
      DurableEvolves(s, t, flat);
      DurableSurvivesCrash(t, flat, run[1..]);
    }
  }

  lemma DurableRepresents(s: Osd, flat: seq<byte>)
    requires Durable(s, flat)
    ensures Represents(s, flat)
  {
    forall p: nat | p < |flat| ensures ByteAt(s, p) == Some(flat[p]) {
      assert Queue(s, p / OBJECT_SIZE) == [] && ByteAt(s, p) == Some(flat[p]);
    }
  }

  lemma {:induction false} OnlyRemovesFold(d: Option<seq<byte>>, q: seq<Request>)
    requires q != [] && forall r :: r in q ==> r.op.Remove?
    ensures FoldData(d, q) == None
    decreases |q|
  {
    assert q[0] in q;
    if |q| > 1 {
      assert forall r :: r in q[1..] ==> r in q;
      OnlyRemovesFold(None, q[1..]);
    } else {
      assert q[1..] == [];
      assert FoldData(None, q[1..]) == None;
    }
  }

  lemma {:induction false} QuietFold(m: Meta, q: seq<Request>)
    requires forall r :: r in q ==> !r.op.SetMeta?
    ensures FoldMeta(m, q) == m
    decreases |q|
  {
    if q != [] {
      assert q[0] in q && forall r :: r in q[1..] ==> r in q;
      QuietFold(m, q[1..]);
    }
  }

  /** Once every request other than removals has been applied, the content is durable. */
  lemma BecomesDurable(s: Osd, flat: seq<byte>)
    requires Represents(s, flat) && MetaView(s).size == |flat|
    requires forall k, r :: r in Queue(s, k) ==> r.op.Remove?
    ensures Durable(s, flat)
  {
    QuietFold(s.meta, Queue(s, 0));
    forall p: nat | p < |flat| ensures Queue(s, p / OBJECT_SIZE) == [] && ByteAt(s, p) == Some(flat[p]) {
      assert ByteAt(s, p) == Some(flat[p]);
      if Queue(s, p / OBJECT_SIZE) != [] {
        OnlyRemovesFold(Data(s, p / OBJECT_SIZE), Queue(s, p / OBJECT_SIZE));
        assert false;
      }
    }
  }

  ghost predicate Dense(s: Osd, off: nat, len: nat) {
    forall p: nat :: off <= p < off + len ==> ByteAt(s, p).Some?
  }

  function ExtentBytes(s: Osd, e: Extent): seq<byte> {
    var d := View(s, e.obj);
    if d.Some? then Slice(d.value, e.off, e.len) else []
  }

  lemma ExtentByte(s: Osd, e: Extent, i: nat)
    requires i < e.len && e.off + e.len <= OBJECT_SIZE
    ensures |ExtentBytes(s, e)| <= e.len
    ensures ByteAt(s, e.obj * OBJECT_SIZE + e.off + i)
         == if i < |ExtentBytes(s, e)| then Some(ExtentBytes(s, e)[i]) else None
  {
    Locate(e.obj, e.off + i);
  }

  /** A read delivers as many bytes as were asked for exactly when the range has no holes,
      and then byte for byte what is stored there.  Otherwise later bytes move forward. */
  lemma {:induction false} ReadBytesExact(s: Osd, off: nat, len: nat)
    ensures |ReadBytes(s, off, len)| <= len
    ensures |ReadBytes(s, off, len)| == len <==> Dense(s, off, len)
    ensures Dense(s, off, len) ==> forall i :: 0 <= i < len ==> ByteAt(s, off + i) == Some(ReadBytes(s, off, len)[i])
    decreases len
  {
    hide ByteAt, ExtentBytes;
    if len > 0 {
      var e := NextExtent(off, len);
      var buf, rest := ExtentBytes(s, e), ReadBytes(s, off + e.len, len - e.len);
      ReadBytesExact(s, off + e.len, len - e.len);
      assert ReadBytes(s, off, len) == buf + rest;
      ExtentByte(s, e, e.len - 1);
      if Dense(s, off, len) {
        assert ByteAt(s, off + e.len - 1).Some?;
        assert Dense(s, off + e.len, len - e.len);
        forall i | 0 <= i < len ensures ByteAt(s, off + i) == Some((buf + rest)[i]) {
          if i < e.len {
            ExtentByte(s, e, i);
          } else {
            assert off + i == (off + e.len) + (i - e.len);
          }
        }
      } else if |buf| == e.len && |rest| == len - e.len {
        forall p: nat | off <= p < off + len ensures ByteAt(s, p).Some? {
          if p < off + e.len { ExtentByte(s, e, p - off); }
        }
      }
    }
  }

  /** A file that represents `flat` reads back as `flat`. */
  lemma ReadRepresents(s: Osd, flat: seq<byte>, off: nat, len: nat)
    requires Represents(s, flat) && off + len <= |flat|
    ensures ReadBytes(s, off, len) == flat[off..off + len]
  {
    ReadBytesExact(s, off, len);
    assert Dense(s, off, len);
    var r := ReadBytes(s, off, len);
    forall i | 0 <= i < len ensures r[i] == flat[off + i] {
      assert ByteAt(s, off + i) == Some(r[i]);
    }
  }

  /** A hole moves later data: ten bytes in object 0 and one byte at the start of object 1
      read as eleven adjacent bytes. */
  lemma HoleShiftsData(s: Osd)
    requires View(s, 0) == Some(seq(10, _ => 0)) && View(s, 1) == Some([7])
    ensures ReadBytes(s, 0, OBJECT_SIZE + 1) == seq(10, _ => 0) + [7]
  {
    var e := NextExtent(0, OBJECT_SIZE + 1);
    var f := NextExtent(OBJECT_SIZE, 1);
    assert ReadBytes(s, OBJECT_SIZE + 1, 0) == [];
    assert ReadBytes(s, OBJECT_SIZE, 1) == [7];
  }
}
