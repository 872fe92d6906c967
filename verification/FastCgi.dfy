/**
  fastcgi.c: writing a response as FastCGI records, and reading name-value pairs, against
  the FastCGI Specification 1.0.
 */
module FastCgi {
  import opened Words
  import opened BufferIO
  import opened Options

  const FCGI_END_REQUEST: Byte := 3
  const FCGI_STDOUT: Byte := 6
  const BUFFER_SIZE: nat := 8192

  // ---------- records, section 3.3 ----------

  datatype Record = Record(version: Byte, kind: Byte, id: nat, content: Bytes, padding: nat)

  function Uint16(high: nat, low: nat): nat {
    256 * high + low
  }

  // Reading records off a byte stream, as section 3.3 lays them out.
  function DecodeRecords(b: Bytes): Option<seq<Record>>
    decreases |b|
  {
    if b == [] then Some([])
    else if |b| < 8 then None
    else
      var length: nat, padding: nat := Uint16(b[4], b[5]), b[6];
      if |b| < 8 + length + padding then None
      else
        var rest := DecodeRecords(b[8 + length + padding..]);
        if rest.None? then None
        else Some([Record(b[0], b[1], Uint16(b[2], b[3]), b[8..8 + length], padding)] + rest.value)
  }

  // What the writer puts before the content of a record.
  function Head(kind: Byte, id: nat, length: nat, padding: Byte): Bytes
    requires id < 65536 && length < 65536
  {
    [1, kind, id / 256, id % 256, length / 256, length % 256, padding, 0]
  }

  function Zeros(n: nat): (z: Bytes)
    ensures |z| == n
    decreases n
  {
    if n == 0 then [] else [0] + Zeros(n - 1)
  }

  function PaddingFor(n: nat): (p: Byte)
    ensures p < 8 && (n + p) % 8 == 0
  {
    (8 - n % 8) % 8
  }

  function RecordBytes(kind: Byte, id: nat, content: Bytes, padding: Byte): Bytes
    requires id < 65536 && |content| < 65536
  {
    Head(kind, id, |content|, padding) + content + Zeros(padding)
  }

  // The standard-output stream cut into records.
  function StdoutBytes(id: nat, all: Bytes): Bytes
    requires id < 65536
    decreases |all|
  {
    if all == [] then []
    else
      var n := Least(|all|, 65535);
      RecordBytes(FCGI_STDOUT, id, all[..n], PaddingFor(n)) + StdoutBytes(id, all[n..])
  }

  // Section 5.5: application status 0, protocol status FCGI_REQUEST_COMPLETE.
  function EndBytes(id: nat): Bytes
    requires id < 65536
  {
    RecordBytes(FCGI_END_REQUEST, id, Zeros(8), 0)
  }

  lemma RecordDecodes(kind: Byte, id: nat, content: Bytes, padding: Byte, rest: Bytes)
    requires id < 65536 && |content| < 65536
    ensures var d := DecodeRecords(rest);
            DecodeRecords(RecordBytes(kind, id, content, padding) + rest) ==
            if d.None? then None else Some([Record(1, kind, id, content, padding)] + d.value)
  {
    hide DecodeRecords, Head, Zeros, Uint16;
    var head := Head(kind, id, |content|, padding);
    HeadReads(kind, id, |content|, padding);
    Slices(head, content, Zeros(padding), rest);
    DecodeStep(head + content + Zeros(padding) + rest, kind, id, content, padding, rest);
  }

  lemma HeadReads(kind: Byte, id: nat, length: nat, padding: Byte)
    requires id < 65536 && length < 65536
    ensures var h := Head(kind, id, length, padding);
            |h| == 8 && h[0] == 1 && h[1] == kind && Uint16(h[2], h[3]) == id && Uint16(h[4], h[5]) == length &&
                h[6] == padding
  {
  }

  lemma DecodeStep(b: Bytes, kind: Byte, id: nat, content: Bytes, padding: Byte, rest: Bytes)
    requires |b| == 8 + |content| + padding + |rest| && b[0] == 1 && b[1] == kind && b[6] == padding
    requires Uint16(b[2], b[3]) == id && Uint16(b[4], b[5]) == |content|
    requires b[8..8 + |content|] == content && b[8 + |content| + padding..] == rest
    ensures DecodeRecords(b) ==
            var d := DecodeRecords(rest);
            if d.None? then None else Some([Record(1, kind, id, content, padding)] + d.value)
  {
    hide Uint16;
  }

  lemma Slices(head: Bytes, content: Bytes, padding: Bytes, rest: Bytes)
    requires |head| == 8
    ensures var b := head + content + padding + rest;
            && (forall i :: 0 <= i < 8 ==> b[i] == head[i])
            && b[8..8 + |content|] == content && b[8 + |content| + |padding|..] == rest
  {
  }

  function Contents(records: seq<Record>): Bytes
    decreases |records|
  {
    if records == [] then [] else records[0].content + Contents(records[1..])
  }

  // A well-formed piece of the standard-output stream.
  predicate IsStdout(r: Record, id: nat) {
    r.version == 1 && r.kind == 6 && r.id == id && 1 <= |r.content| <= 65535 && r.padding < 8 &&
        (|r.content| + r.padding) % 8 == 0
  }

  // The records decode to the content they were cut from, one FCGI_END_REQUEST last.
  lemma {:induction false} ResponseDecodes(id: nat, all: Bytes)
    requires id < 65536
    ensures var d := DecodeRecords(EndedBytes(id, all));
            && d.Some? && |d.value| > 0
            && var n := |d.value| - 1;
            && (forall i :: 0 <= i < n ==> IsStdout(d.value[i], id))
            && Contents(d.value[..n]) == all
            && d.value[n] == Record(1, 3, id, [0, 0, 0, 0, 0, 0, 0, 0], 0)
    decreases |all|
  {
    hide RecordBytes, DecodeRecords, StdoutBytes;
    assert DecodeRecords([]) == Some([]) by { DecodeNothing(); }
    EightZeros();
    StdoutSteps(id, all);
    if all == [] {
      RecordDecodes(FCGI_END_REQUEST, id, Zeros(8), 0, []);
      assert EndBytes(id) + [] == EndBytes(id);
    } else {
      var n := Least(|all|, 65535);
      var rest := StdoutBytes(id, all[n..]) + EndBytes(id);
      ResponseDecodes(id, all[n..]);
      RecordDecodes(FCGI_STDOUT, id, all[..n], PaddingFor(n), rest);
      var first, tail := Record(1, FCGI_STDOUT, id, all[..n], PaddingFor(n)), DecodeRecords(rest).value;
      assert ([first] + tail)[..|tail|] == [first] + tail[..|tail| - 1];
      assert ([first] + tail[..|tail| - 1])[1..] == tail[..|tail| - 1];
      assert all[..n] + all[n..] == all;
    }
  }

  lemma EightZeros()
    ensures Zeros(8) == [0, 0, 0, 0, 0, 0, 0, 0]
  {
    assert Zeros(4) == [0, 0, 0, 0];
  }

  lemma DecodeNothing()
    ensures DecodeRecords([]) == Some([])
  {
  }

  lemma StdoutSteps(id: nat, all: Bytes)
    requires id < 65536
    ensures var s := StdoutBytes(id, all) + EndBytes(id);
            if all == [] then s == EndBytes(id)
            else
              var n := Least(|all|, 65535);
              s == RecordBytes(FCGI_STDOUT, id, all[..n], PaddingFor(n)) + (StdoutBytes(id, all[n..]) + EndBytes(id))
  {
    hide RecordBytes;
  }

  // ---------- writing a response ----------

  // A bucket of the header table: vacant, or a name with its values.
  datatype HeaderSlot = Vacant | Header(name: Bytes, values: seq<Bytes>)

  const COLON: Bytes := [58, 32]
  const CRLF: Bytes := [13, 10]

  // The pieces the loops append, in order.
  function LineParts(name: Bytes, value: Bytes): seq<Bytes> {
    [name, COLON, value, CRLF]
  }

  function LinesParts(name: Bytes, values: seq<Bytes>): seq<Bytes>
    decreases |values|
  {
    if values == [] then [] else LineParts(name, values[0]) + LinesParts(name, values[1..])
  }

  function Parts(headers: seq<HeaderSlot>): seq<Bytes>
    decreases |headers|
  {
    if headers == [] then [CRLF]
    else (if headers[0].Header? then LinesParts(headers[0].name, headers[0].values) else []) + Parts(headers[1..])
  }

  // The header block: a line for every value of every name, and an empty line.
  function Block(headers: seq<HeaderSlot>): Bytes {
    Concat(Parts(headers))
  }

  // What is left of the pieces when some appends fail.
  ghost function Kept(parts: seq<Bytes>, kept: seq<bool>): Bytes
    requires |parts| == |kept|
    decreases |parts|
  {
    if parts == [] then []
    else
      var n := |parts| - 1;
      Kept(parts[..n], kept[..n]) + (if kept[n] then parts[n] else [])
  }

  lemma {:induction false} KeptFits(parts: seq<Bytes>, kept: seq<bool>, n: nat)
    requires n <= |parts| && |kept| == n
    ensures |Kept(parts[..n], kept)| + |Concat(parts[n..])| <= |Concat(parts)|
    ensures (forall i :: 0 <= i < n ==> kept[i]) ==> Kept(parts[..n], kept) + Concat(parts[n..]) == Concat(parts)
    decreases n
  {
    if n == 0 {
      assert parts[0..] == parts;
    } else {
      var m := n - 1;
      KeptFits(parts, kept[..m], m);
      assert parts[..n][..m] == parts[..m];
      assert parts[m..][1..] == parts[n..] && parts[m..][0] == parts[m];
    }
  }

  lemma AllKept(parts: seq<Bytes>, kept: seq<bool>)
    requires |kept| == |parts| && forall i :: 0 <= i < |kept| ==> kept[i]
    ensures Kept(parts, kept) == Concat(parts)
  {
    KeptFits(parts, kept, |parts|);
    assert parts[..|parts|] == parts && parts[|parts|..] == [];
  }

  // n pieces have been handled, and these are to come.
  ghost predicate Progress(buf: Buffer, parts: seq<Bytes>, memory: seq<bool>, kept: seq<bool>, n: int,
        coming: seq<Bytes>)
    reads buf, buf.ptr
  {
    && buf.Valid() && 0 <= n <= |parts| == |memory| && |kept| == n && parts[n..] == coming
    && (forall i :: 0 <= i < n && memory[i] ==> kept[i])
    && buf.Contents() == Kept(parts[..n], kept)
  }

  // One append; what it answers is not looked at.
  method AppendPart(buf: Buffer, data: Bytes, memory: seq<bool>, n: nat, ghost parts: seq<Bytes>,
        ghost kept: seq<bool>, ghost coming: seq<Bytes>)
    returns (ghost kept': seq<bool>)
    requires Progress(buf, parts, memory, kept, n, [data] + coming) && |Concat(parts)| <= HALF64
    modifies buf, buf.ptr
    ensures Progress(buf, parts, memory, kept', n + 1, coming) && (buf.ptr != old(buf.ptr) ==> fresh(buf.ptr))
  {
    hide Buffer.Contents, Concat, Kept;
    KeptFits(parts, kept, n);
    NextFits(parts, n, data, coming);
    var r := buf.Append(data, memory[n]);
    kept' := kept + [r == 0];
    KeptMore(parts, kept, n, r == 0);
  }

  lemma NextFits(parts: seq<Bytes>, n: nat, data: Bytes, coming: seq<Bytes>)
    requires n <= |parts| && parts[n..] == [data] + coming
    ensures n < |parts| && parts[n] == data && parts[n + 1..] == coming && |data| <= |Concat(parts[n..])|
  {
    assert parts[n..][0] == data && parts[n..][1..] == coming;
  }

  lemma KeptMore(parts: seq<Bytes>, kept: seq<bool>, n: nat, k: bool)
    requires n < |parts| && |kept| == n
    ensures Kept(parts[..n + 1], kept + [k]) == Kept(parts[..n], kept) + (if k then parts[n] else [])
  {
    assert parts[..n + 1][..n] == parts[..n] && (kept + [k])[..n] == kept;
  }

  // One line of the block.
  method AppendLine(buf: Buffer, name: Bytes, value: Bytes, memory: seq<bool>, n: nat,
                    ghost parts: seq<Bytes>, ghost kept: seq<bool>, ghost coming: seq<Bytes>)
    returns (ghost kept': seq<bool>)
    requires Progress(buf, parts, memory, kept, n, LineParts(name, value) + coming) && |Concat(parts)| <= HALF64
    modifies buf, buf.ptr
    ensures Progress(buf, parts, memory, kept', n + 4, coming) && (buf.ptr != old(buf.ptr) ==> fresh(buf.ptr))
  {
    hide Progress, Concat;
    ghost var one := [CRLF] + coming;
    ghost var two := [value] + one;
    ghost var three := [COLON] + two;
    assert LineParts(name, value) + coming == [name] + three;
    kept' := AppendPart(buf, name, memory, n, parts, kept, three);
    kept' := AppendPart(buf, COLON, memory, n + 1, parts, kept', two);
    kept' := AppendPart(buf, value, memory, n + 2, parts, kept', one);
    kept' := AppendPart(buf, CRLF, memory, n + 3, parts, kept', coming);
  }

  // The loops that render the headers into the first buffer, with the memory outcome of
  // every append.  The buffer has the pieces that could be appended: the whole block, if all.
  method Render(buf: Buffer, headers: seq<HeaderSlot>, memory: seq<bool>) returns (ghost kept: seq<bool>)
    requires buf.Valid() && buf.Contents() == [] && |Block(headers)| <= HALF64 && |memory| == |Parts(headers)|
    modifies buf, buf.ptr
    ensures buf.Valid() && |kept| == |Parts(headers)| && forall i :: 0 <= i < |kept| && memory[i] ==> kept[i]
    ensures buf.Contents() == Kept(Parts(headers), kept)
    ensures (forall i :: 0 <= i < |memory| ==> memory[i]) ==> buf.Contents() == Block(headers)
  {
    hide LineParts, LinesParts, Parts, Concat, Kept, Progress, Buffer.Contents;
    ghost var parts := Parts(headers);
    var idx, n := 0, 0;
    kept := [];
    assert headers[0..] == headers;
    NothingYet(buf, parts, memory);
    while idx < |headers|
      invariant 0 <= idx <= |headers| && n >= 0 && (buf.ptr != old(buf.ptr) ==> fresh(buf.ptr))
      invariant Progress(buf, parts, memory, kept, n, Parts(headers[idx..]))
    {
      ghost var rest := Parts(headers[idx + 1..]);
      PartsStep(headers, idx);
      if headers[idx].Header? {
        var name, values := headers[idx].name, headers[idx].values;
        var i := 0;
        assert values[0..] == values;
        while i < |values|
          invariant 0 <= i <= |values| && n >= 0 && (buf.ptr != old(buf.ptr) ==> fresh(buf.ptr))
          invariant Progress(buf, parts, memory, kept, n, LinesParts(name, values[i..]) + rest)
        {
          LinesStep(name, values, i, rest);
          kept := AppendLine(buf, name, values[i], memory, n, parts, kept, LinesParts(name, values[i + 1..]) + rest);
          n := n + 4;
          i := i + 1;
        }
        LinesEnd(name, values, rest);
      } else {
        assert [] + rest == rest;
      }
      idx := idx + 1;
    }
    PartsEnd(headers);
    assert [CRLF] == [CRLF] + [];
    kept := AppendPart(buf, CRLF, memory, n, parts, kept, []);
    AllDone(buf, parts, memory, kept, n + 1);
  }

  lemma NothingYet(buf: Buffer, parts: seq<Bytes>, memory: seq<bool>)
    requires buf.Valid() && buf.Contents() == [] && |memory| == |parts|
    ensures Progress(buf, parts, memory, [], 0, parts)
  {
    assert parts[..0] == [] && parts[0..] == parts;
  }

  lemma AllDone(buf: Buffer, parts: seq<Bytes>, memory: seq<bool>, kept: seq<bool>, n: int)
    requires Progress(buf, parts, memory, kept, n, [])
    ensures buf.Valid() && |kept| == |parts| == |memory| && (forall i :: 0 <= i < |kept| && memory[i] ==> kept[i])
    ensures buf.Contents() == Kept(parts, kept)
    ensures (forall i :: 0 <= i < |memory| ==> memory[i]) ==> Kept(parts, kept) == Concat(parts)
  {
    assert |parts[n..]| == |parts| - n;
    assert parts[..n] == parts;
    if forall i :: 0 <= i < |memory| ==> memory[i] {
      AllKept(parts, kept);
    }
  }

  lemma PartsStep(headers: seq<HeaderSlot>, idx: nat)
    requires idx < |headers|
    ensures Parts(headers[idx..]) ==
            (if headers[idx].Header? then LinesParts(headers[idx].name, headers[idx].values)
                else []) + Parts(headers[idx + 1..])
  {
    assert headers[idx..][1..] == headers[idx + 1..];
  }

  lemma PartsEnd(headers: seq<HeaderSlot>)
    ensures Parts(headers[|headers|..]) == [CRLF]
  {
  }

  lemma LinesStep(name: Bytes, values: seq<Bytes>, i: nat, rest: seq<Bytes>)
    requires i < |values|
    ensures LinesParts(name, values[i..]) + rest == LineParts(name, values[i]) +
            (LinesParts(name, values[i + 1..]) + rest)
  {
    assert values[i..][1..] == values[i + 1..];
  }

  lemma LinesEnd(name: Bytes, values: seq<Bytes>, rest: seq<Bytes>)
    ensures LinesParts(name, values[|values|..]) + rest == rest
  {
  }

  // A buffer pointer, possibly NULL, with what the buffer holds.
  datatype BufferRef = NoBuffer | Holds(bytes: Bytes)

  // The bytes of the buffers from the k-th on, up to the first NULL.
  function BytesFrom(bufs: seq<BufferRef>, k: nat): Bytes
    decreases |bufs| - k
  {
    if k >= |bufs| || bufs[k].NoBuffer? then [] else bufs[k].bytes + BytesFrom(bufs, k + 1)
  }

  // A place in the buffers, and the bytes still to be sent from there.
  predicate IsPlace(bufs: seq<BufferRef>, k: nat, offset: nat) {
    k < |bufs| && if bufs[k].NoBuffer? then offset == 0 else offset <= |bufs[k].bytes|
  }

  function Pending(bufs: seq<BufferRef>, k: nat, offset: nat): Bytes
    requires IsPlace(bufs, k, offset)
  {
    BytesFrom(bufs, k)[offset..]
  }

  lemma PendingSteps(bufs: seq<BufferRef>, k: nat, offset: nat, n: nat)
    requires IsPlace(bufs, k, offset) && bufs[k].Holds? && offset + n <= |bufs[k].bytes|
    ensures Pending(bufs, k, offset) == bufs[k].bytes[offset..offset + n] + Pending(bufs, k, offset + n)
    ensures offset + n == |bufs[k].bytes| && k + 1 < |bufs| ==> Pending(bufs, k, offset + n) == Pending(bufs, k + 1, 0)
  {
  }

  // One write whose answer is not looked at.
  method Put(writer: Writer, data: Bytes)
    requires writer.Valid()
    modifies writer.sink, writer.buffer, writer.buffer.ptr
    ensures writer.Valid() && writer.buffer.ptr == old(writer.buffer.ptr)
    ensures writer.sink.failures >= old(writer.sink.failures)
    ensures writer.sink.failures == old(writer.sink.failures) ==> writer.Written() == old(writer.Written()) + data
  {
    ghost var flushed, done;
    var r;
    r, flushed, done := writer.Write(data);
  }

  // The inner loop of the writer, from next_buf: `size` bytes of content, from as many
  // buffers as they take.  The NULL buffer is never reached.
  method Content(writer: Writer, bufs: seq<BufferRef>, k0: nat, offset0: nat, size: nat) returns (k: nat, offset: nat)
    requires writer.Valid() && |bufs| > 0 && bufs[|bufs| - 1].NoBuffer?
    requires IsPlace(bufs, k0, offset0) && 0 < size <= |Pending(bufs, k0, offset0)|
    modifies writer.sink, writer.buffer, writer.buffer.ptr
    ensures writer.Valid() && writer.buffer.ptr == old(writer.buffer.ptr) &&
            writer.sink.failures >= old(writer.sink.failures)
    ensures IsPlace(bufs, k, offset) && Pending(bufs, k, offset) == Pending(bufs, k0, offset0)[size..]
    ensures writer.sink.failures == old(writer.sink.failures) ==>
            writer.Written() == old(writer.Written()) + Pending(bufs, k0, offset0)[..size]
  {
    hide Writer.Written, Pending, Writer.Valid;
    ghost var all := Pending(bufs, k0, offset0);
    k, offset := k0, offset0;
    var pksz := size;
    while true
      invariant writer.Valid() && writer.buffer.ptr == old(writer.buffer.ptr) &&
              writer.sink.failures >= old(writer.sink.failures)
      invariant IsPlace(bufs, k, offset) && 0 < pksz <= size && Pending(bufs, k, offset) == all[size - pksz..]
      invariant writer.sink.failures == old(writer.sink.failures) ==>
              writer.Written() == old(writer.Written()) + all[..size - pksz]
      decreases |bufs| - k, pksz
    {
      PendingNeedsBuffer(bufs, k, offset);
      if bufs[k].NoBuffer? {
        assert false;
      }
      var rest := |bufs[k].bytes| - offset;
      var wtsz := if rest > pksz then pksz else rest;
      PendingSteps(bufs, k, offset, wtsz);
      assert all[..size - pksz] + bufs[k].bytes[offset..offset + wtsz] == all[..size - pksz + wtsz] by
          { Split(all, size - pksz, bufs[k].bytes[offset..offset + wtsz], Pending(bufs, k, offset + wtsz)); }
      Put(writer, bufs[k].bytes[offset..offset + wtsz]);
      offset := offset + wtsz;
      pksz := pksz - wtsz;
      if offset == |bufs[k].bytes| {
        offset := 0;
        k := k + 1;
      }
      if pksz == 0 {
        break;
      }
    }
  }

  lemma PendingNeedsBuffer(bufs: seq<BufferRef>, k: nat, offset: nat)
    requires IsPlace(bufs, k, offset) && |bufs| > 0 && bufs[|bufs| - 1].NoBuffer? && Pending(bufs, k, offset) != []
    ensures bufs[k].Holds? && k + 1 < |bufs|
  {
  }

  lemma Split(all: Bytes, i: nat, part: Bytes, rest: Bytes)
    requires i <= |all| && all[i..] == part + rest
    ensures i + |part| <= |all| && all[..i] + part == all[..i + |part|] && all[i + |part|..] == rest
  {
  }

  // The record loop: the buffers go out as standard-output records.
  method Records(writer: Writer, id: nat, bufs: seq<BufferRef>, total: nat)
    requires writer.Valid() && id < 65536 && total == |BytesFrom(bufs, 0)| && |bufs| > 0 && bufs[|bufs| - 1].NoBuffer?
    modifies writer.sink, writer.buffer, writer.buffer.ptr
    ensures writer.Valid() && writer.buffer.ptr == old(writer.buffer.ptr) &&
            writer.sink.failures >= old(writer.sink.failures)
    ensures writer.sink.failures == old(writer.sink.failures) ==>
            writer.Written() == old(writer.Written()) + StdoutBytes(id, BytesFrom(bufs, 0))
  {
    hide Writer.Written, Pending, StdoutBytes, BytesFrom, Writer.Valid, Head, Zeros;
    ghost var all := BytesFrom(bufs, 0);
    var length := total;
    var k, offset := 0, 0;
    assert Pending(bufs, 0, 0) == all by { PendingStart(bufs); }
    while length > 0
      invariant writer.Valid() && writer.buffer.ptr == old(writer.buffer.ptr) &&
              writer.sink.failures >= old(writer.sink.failures)
      invariant IsPlace(bufs, k, offset) && length == |Pending(bufs, k, offset)|
      invariant writer.sink.failures == old(writer.sink.failures) ==>
                  writer.Written() + StdoutBytes(id, Pending(bufs, k, offset)) ==
                      old(writer.Written()) + StdoutBytes(id, all)
    {
      ghost var rest, written := Pending(bufs, k, offset), writer.Written();
      var pksz := if length <= 65535 then length else 65535;
      length := length - pksz;
      var padding := PaddingFor(pksz);
      Put(writer, Head(FCGI_STDOUT, id, pksz, padding));
      k, offset := Content(writer, bufs, k, offset, pksz);
      if padding != 0 {
        Put(writer, Zeros(padding));
      }
      if writer.sink.failures == old(writer.sink.failures) {
        NoZeros();
        StdoutStep(id, rest, written, writer.Written());
      }
    }
    NoStdout(id, Pending(bufs, k, offset));
  }

  lemma PendingStart(bufs: seq<BufferRef>)
    requires |bufs| > 0
    ensures Pending(bufs, 0, 0) == BytesFrom(bufs, 0)
  {
  }

  lemma NoZeros()
    ensures Zeros(0) == []
  {
  }

  lemma NoStdout(id: nat, all: Bytes)
    requires id < 65536 && all == []
    ensures StdoutBytes(id, all) == []
  {
  }

  // One record moves from what is to be sent to what was written.
  lemma StdoutStep(id: nat, rest: Bytes, before: Bytes, after: Bytes)
    requires id < 65536 && rest != []
    requires var n := Least(|rest|, 65535);
             after == before + Head(FCGI_STDOUT, id, n, PaddingFor(n)) + rest[..n] + Zeros(PaddingFor(n))
    ensures after + StdoutBytes(id, rest[Least(|rest|, 65535)..]) == before + StdoutBytes(id, rest)
  {
    hide Head, Zeros;
    var n := Least(|rest|, 65535);
    var record, more := RecordBytes(FCGI_STDOUT, id, rest[..n], PaddingFor(n)), StdoutBytes(id, rest[n..]);
    ThreeParts(before, Head(FCGI_STDOUT, id, n, PaddingFor(n)), rest[..n], Zeros(PaddingFor(n)), more);
  }

  lemma ThreeParts(before: Bytes, head: Bytes, content: Bytes, padding: Bytes, more: Bytes)
    ensures before + head + content + padding + more == before + ((head + content + padding) + more)
  {
  }

  // fcgi_write_response, with the outcomes of every request for memory.  What the appends and
  // the writes answer is not looked at: the response carries the pieces of the header block
  // that could be appended, and after a failed write it goes on with the next.
  method WriteResponse(sink: Sink, id: nat, headers: seq<HeaderSlot>, data: BufferRef, bufOk: bool, memory: seq<bool>,
        writerOk: bool)
    returns (ret: int, ghost kept: seq<bool>)
    requires id < 65536 && |Block(headers)| <= HALF64 && |memory| == |Parts(headers)| && Sane(sink.plan, false)
    modifies sink
    ensures ret == if bufOk && writerOk then 0 else -1
    ensures ret < 0 ==> sink.sent == old(sink.sent)
    ensures |kept| == |Parts(headers)| && forall i :: 0 <= i < |kept| && memory[i] ==> kept[i]
    ensures ret == 0 && sink.failures == old(sink.failures) ==>
              sink.sent == old(sink.sent) + EndedBytes(id, Kept(Parts(headers), kept) + (if data.Holds?
                  then data.bytes else []))
    ensures ret == 0 && sink.failures == old(sink.failures) && (forall i :: 0 <= i < |memory| ==> memory[i]) ==>
              sink.sent == old(sink.sent) + EndedBytes(id, Block(headers) + (if data.Holds? then data.bytes else []))
  {
    hide EndedBytes, Parts, Concat, Head, Zeros, BytesFrom, LeastPow2, IsPow2, Kept;
    kept := seq(|Parts(headers)|, _ => true);
    if !bufOk {
      return -1, kept;
    }
    var buf := new Buffer(BUFFER_SIZE);
    kept := Render(buf, headers, memory);
    var length := buf.len;
    if data.Holds? {
      length := length + |data.bytes|;
    }
    if !writerOk {
      return -1, kept;
    }
    var block := if buf.ptr == null then [] else buf.ptr[..buf.len];
    TwoBuffers(block, data);
    var writer := new Writer(sink, BUFFER_SIZE);
    Respond(writer, id, [Holds(block), data, NoBuffer], length);
    return 0, kept;
  }

  // A whole response of this content.
  function EndedBytes(id: nat, all: Bytes): Bytes
    requires id < 65536
  {
    StdoutBytes(id, all) + EndBytes(id)
  }

  // What the writer sends: the records, the end of the request, and the flush.
  method Respond(writer: Writer, id: nat, bufs: seq<BufferRef>, length: nat)
    requires writer.Valid() && id < 65536 && length == |BytesFrom(bufs, 0)| && |bufs| > 0 && bufs[|bufs| - 1].NoBuffer?
    modifies writer.sink, writer.buffer, writer.buffer.ptr
    ensures writer.sink.failures == old(writer.sink.failures) ==>
            writer.sink.sent == old(writer.Written()) + EndedBytes(id, BytesFrom(bufs, 0))
  {
    hide StdoutBytes, Head, Zeros, BytesFrom, Writer.Written, Writer.Valid;
    ghost var start := writer.Written();
    Records(writer, id, bufs, length);
    Put(writer, Head(FCGI_END_REQUEST, id, 8, 0));
    Put(writer, Zeros(8));
    ghost var done;
    var r;
    r, done := writer.Flush();
    NoZeros();
    EndStep(id, start + StdoutBytes(id, BytesFrom(bufs, 0)));
  }

  lemma EndStep(id: nat, before: Bytes)
    requires id < 65536
    ensures before + Head(FCGI_END_REQUEST, id, 8, 0) + Zeros(8) == before + EndBytes(id)
  {
    hide Head;
    NoZeros();
  }

  lemma TwoBuffers(block: Bytes, data: BufferRef)
    ensures BytesFrom([Holds(block), data, NoBuffer], 0) == block + (if data.Holds? then data.bytes else [])
  {
    var bufs := [Holds(block), data, NoBuffer];
    assert BytesFrom(bufs, 2) == [];
    assert BytesFrom(bufs, 1) == if data.Holds? then data.bytes else [];
  }
}
