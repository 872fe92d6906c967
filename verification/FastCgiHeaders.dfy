/**
  Reading the header block of a response back: lines end with a carriage return and a line
  feed, a colon and a space divide a name from its value, and an empty line ends the block.
 */
module FastCgiHeaders {
  import opened Words
  import opened BufferIO
  import opened FastCgi
  import opened Options

  // ---------- the reader ----------

  // Where the two bytes first stand together.
  function Find(b: Bytes, x: Byte, y: Byte): Option<nat>
    decreases |b|
  {
    if |b| < 2 then None
    else if b[0] == x && b[1] == y then Some(0)
    else
      var i := Find(b[1..], x, y);
      if i.None? then None else Some(i.value + 1)
  }

  datatype Headers = Headers(pairs: seq<(Bytes, Bytes)>, body: Bytes)

  // The names and values up to the empty line, and what follows it.
  function ReadHeaders(b: Bytes): Option<Headers>
    decreases |b|
  {
    var end := Find(b, 13, 10);
    if end.None? || end.value + 2 > |b| then None
    else if end.value == 0 then Some(Headers([], b[2..]))
    else
      var line := b[..end.value];
      var colon := Find(line, 58, 32);
      var rest := ReadHeaders(b[end.value + 2..]);
      if colon.None? || colon.value + 2 > |line| || rest.None? then None
      else Some(Headers([(line[..colon.value], line[colon.value + 2..])] + rest.value.pairs, rest.value.body))
  }

  // ---------- what is to be read ----------

  function PairsOf(headers: seq<HeaderSlot>): seq<(Bytes, Bytes)>
    decreases |headers|
  {
    if headers == [] then []
    else (match headers[0]
          case Vacant => []
          case Header(name, values) => seq(|values|, i requires 0 <= i < |values| => (name, values[i])))
         + PairsOf(headers[1..])
  }

  ghost predicate PlainName(name: Bytes) {
    58 !in name && 13 !in name && 10 !in name
  }

  ghost predicate PlainValue(value: Bytes) {
    13 !in value && 10 !in value
  }

  ghost predicate Plain(headers: seq<HeaderSlot>) {
    forall h :: h in headers && h.Header? ==> PlainName(h.name) && forall v :: v in h.values ==> PlainValue(v)
  }

  // ---------- a line ----------

  lemma {:induction false} FindsFirst(p: Bytes, x: Byte, y: Byte, rest: Bytes)
    requires x !in p
    ensures Find(p + [x, y] + rest, x, y) == Some(|p|)
    decreases |p|
  {
    var b := p + [x, y] + rest;
    if p == [] {
      assert b[0] == x && b[1] == y;
    } else {
      assert b[0] == p[0] && b[1..] == p[1..] + [x, y] + rest;
      FindsFirst(p[1..], x, y, rest);
    }
  }

  lemma LineReads(name: Bytes, value: Bytes, rest: Bytes)
    requires PlainName(name) && PlainValue(value)
    ensures ReadHeaders(name + [58, 32] + value + [13, 10] + rest) ==
            var r := ReadHeaders(rest);
            if r.None? then None else Some(Headers([(name, value)] + r.value.pairs, r.value.body))
  {
    hide Find;
    var line: Bytes := name + [58, 32] + value;
    var b := line + [13, 10] + rest;
    FindsFirst(line, 13, 10, rest);
    FindsFirst(name, 58, 32, value);
    assert b[..|line|] == line && b[|line| + 2..] == rest;
    assert line[..|name|] == name && line[|name| + 2..] == value;
    assert name + [58, 32] + value + [13, 10] + rest == b;
  }

  lemma EndReads(body: Bytes)
    ensures ReadHeaders([13, 10] + body) == Some(Headers([], body))
  {
    FindsFirst([], 13, 10, body);
    assert [] + [13, 10] + body == [13, 10] + body;
    assert ([13, 10] + body)[2..] == body;
  }

  // ---------- the block ----------

  lemma {:induction false} ConcatTwo(a: seq<Bytes>, b: seq<Bytes>)
    ensures Concat(a + b) == Concat(a) + Concat(b)
    decreases |a|
  {
    if a == [] {
      assert a + b == b;
    } else {
      assert (a + b)[0] == a[0] && (a + b)[1..] == a[1..] + b;
      ConcatTwo(a[1..], b);
    }
  }

  lemma LineBytes(name: Bytes, value: Bytes)
    ensures Concat(LineParts(name, value)) == name + [58, 32] + value + [13, 10]
  {
    ConcatTwo([name], [COLON, value, CRLF]);
    ConcatTwo([COLON], [value, CRLF]);
    ConcatTwo([value], [CRLF]);
    ConcatOne(name);
    ConcatOne(COLON);
    ConcatOne(value);
    ConcatOne(CRLF);
    assert LineParts(name, value) == [name] + ([COLON] + ([value] + [CRLF]));
    assert [COLON] + [value, CRLF] == [COLON, value, CRLF] && [value] + [CRLF] == [value, CRLF];
    Joins(name, COLON, value + CRLF);
    Joins(name + COLON, value, CRLF);
  }

  lemma ConcatOne(part: Bytes)
    ensures Concat([part]) == part
  {
    assert [part][1..] == [];
  }

  // The lines of one name are read as its values in order, before whatever follows.
  lemma {:induction false} LinesRead(name: Bytes, values: seq<Bytes>, rest: Bytes)
    requires PlainName(name) && forall v :: v in values ==> PlainValue(v)
    requires ReadHeaders(rest).Some?
    ensures var r := ReadHeaders(rest).value;
            var pairs: seq<(Bytes, Bytes)> := seq(|values|, i requires 0 <= i < |values| => (name, values[i]));
            ReadHeaders(Concat(LinesParts(name, values)) + rest) == Some(Headers(pairs + r.pairs, r.body))
    decreases |values|
  {
    hide ReadHeaders, PlainName, PlainValue, LineParts, Concat;
    var r := ReadHeaders(rest).value;
    var pairs: seq<(Bytes, Bytes)> := seq(|values|, i requires 0 <= i < |values| => (name, values[i]));
    if values == [] {
      assert Concat([]) == [] by { ConcatNothing(); }
      assert [] + rest == rest && pairs + r.pairs == r.pairs;
    } else {
      var more := values[1..];
      var tail: seq<(Bytes, Bytes)> := seq(|more|, i requires 0 <= i < |more| => (name, more[i]));
      LinesRead(name, more, rest);
      ConcatTwo(LineParts(name, values[0]), LinesParts(name, more));
      LineBytes(name, values[0]);
      LineReads(name, values[0], Concat(LinesParts(name, more)) + rest);
      assert pairs == [(name, values[0])] + tail;
      assert [(name, values[0])] + (tail + r.pairs) == pairs + r.pairs;
      Joins(name + [58, 32] + values[0] + [13, 10], Concat(LinesParts(name, more)), rest);
    }
  }

  lemma ConcatNothing()
    ensures Concat([]) == []
  {
  }

  lemma Joins(a: Bytes, b: Bytes, c: Bytes)
    ensures (a + b) + c == a + (b + c)
  {
  }

  // The block of any table whose names and values are plain is read back as exactly its names
  // and values, in table order, and what follows the block is left.
  lemma {:induction false} BlockReadsBack(headers: seq<HeaderSlot>, body: Bytes)
    requires Plain(headers)
    ensures ReadHeaders(Block(headers) + body) == Some(Headers(PairsOf(headers), body))
    decreases |headers|
  {
    hide ReadHeaders, PlainName, PlainValue, LinesParts;
    if headers == [] {
      assert Concat([CRLF]) == [13, 10] by { assert [CRLF][1..] == []; }
      EndReads(body);
    } else {
      var rest := headers[1..];
      BlockReadsBack(rest, body);
      match headers[0]
      case Vacant =>
        assert [] + Parts(rest) == Parts(rest) && [] + PairsOf(rest) == PairsOf(rest);
      case Header(name, values) =>
        assert headers[0] in headers;
        ConcatTwo(LinesParts(name, values), Parts(rest));
        LinesRead(name, values, Block(rest) + body);
        Joins(Concat(LinesParts(name, values)), Block(rest), body);
    }
  }

  // A whole response is read back: the records decode to the header block and the body.
  lemma ResponseReadsBack(id: nat, headers: seq<HeaderSlot>, body: Bytes)
    requires id < 65536 && Plain(headers)
    ensures var d := DecodeRecords(EndedBytes(id, Block(headers) + body));
            && d.Some? && |d.value| > 0
            && ReadHeaders(Contents(d.value[..|d.value| - 1])) == Some(Headers(PairsOf(headers), body))
  {
    hide ReadHeaders, DecodeRecords, EndedBytes, Block, Plain;
    ResponseDecodes(id, Block(headers) + body);
    BlockReadsBack(headers, body);
  }
}
