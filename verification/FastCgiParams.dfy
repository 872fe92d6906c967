/**
  fastcgi.c: reading the name-value pairs of section 3.4 of the FastCGI Specification 1.0
  into a string table.
 */
module FastCgiParams {
  import opened Options
  import opened Words
  import opened HashShape
  import opened HashTable
  import HashRun

  // ---------- name-value pairs ----------

  // A pair, and which of its lengths take four bytes.
  datatype Pair = Pair(name: Bytes, value: Bytes, wideName: bool, wideValue: bool)

  const MAX_LENGTH: nat := 0x8000_0000

  ghost predicate Fits(n: nat, wide: bool) {
    n < (if wide then MAX_LENGTH else 128)
  }

  ghost predicate Encodable(p: Pair) {
    Fits(|p.name|, p.wideName) && Fits(|p.value|, p.wideValue)
  }

  ghost predicate AllEncodable(ps: seq<Pair>) {
    forall i :: 0 <= i < |ps| ==> Encodable(ps[i])
  }

  ghost function EncodeLength(n: nat, wide: bool): Bytes
    requires Fits(n, wide)
  {
    if wide then [128 + n / 256 / 256 / 256, n / 256 / 256 % 256, n / 256 % 256, n % 256] else [n]
  }

  ghost function EncodePair(p: Pair): Bytes
    requires Encodable(p)
  {
    EncodeLength(|p.name|, p.wideName) + EncodeLength(|p.value|, p.wideValue) + p.name + p.value
  }

  ghost function EncodePairs(ps: seq<Pair>): Bytes
    requires AllEncodable(ps)
    decreases |ps|
  {
    if ps == [] then [] else EncodePair(ps[0]) + EncodePairs(ps[1..])
  }

  // ---------- reading them back ----------

  function Uint31(b0: nat, b1: nat, b2: nat, b3: nat): nat {
    b0 % 128 * 0x100_0000 + b1 * 0x1_0000 + b2 * 0x100 + b3
  }

  // A length and how many bytes it took, if the bytes are there.
  ghost function FirstLength(b: Bytes): Option<(nat, nat)> {
    if b == [] then None
    else if b[0] < 128 then Some((b[0], 1))
    else if |b| < 4 then None
    else Some((Uint31(b[0], b[1], b[2], b[3]), 4))
  }

  ghost function FirstPair(b: Bytes): Option<Pair> {
    var n := FirstLength(b);
    if n.None? || n.value.1 > |b| then None
    else
      var a := n.value.1;
      var v := FirstLength(b[a..]);
      if v.None? || a + v.value.1 + n.value.0 + v.value.0 > |b| then None
      else
        var body := b[a + v.value.1..];
        Some(Pair(body[..n.value.0], body[n.value.0..n.value.0 + v.value.0], a == 4, v.value.1 == 4))
  }

  ghost function Size(p: Pair): nat {
    (if p.wideName then 4 else 1) + (if p.wideValue then 4 else 1) + |p.name| + |p.value|
  }

  // The pairs of a block, if it is made of whole pairs.
  ghost function Decode(b: Bytes): Option<seq<Pair>>
    decreases |b|
  {
    if b == [] then Some([])
    else
      var p := FirstPair(b);
      if p.None? || Size(p.value) > |b| then None
      else
        var rest := Decode(b[Size(p.value)..]);
        if rest.None? then None else Some([p.value] + rest.value)
  }

  lemma Digits(n: nat)
    requires n < MAX_LENGTH
    ensures n / 256 / 256 / 256 < 128
    ensures Uint31(128 + n / 256 / 256 / 256, n / 256 / 256 % 256, n / 256 % 256, n % 256) == n
  {
    var a := n / 256;
    var b := a / 256;
    assert n == 256 * a + n % 256 && a == 256 * b + a % 256 && b == 256 * (b / 256) + b % 256;
  }

  lemma FromDigits(b0: Byte, b1: Byte, b2: Byte, b3: Byte)
    requires b0 >= 128
    ensures var n := Uint31(b0, b1, b2, b3);
            n < MAX_LENGTH && n % 256 == b3 && n / 256 % 256 == b2 && n / 256 / 256 % 256 == b1 &&
                128 + n / 256 / 256 / 256 == b0
  {
    var n: nat, d: nat := Uint31(b0, b1, b2, b3), b0 - 128;
    assert n == 256 * (256 * (256 * d + b1) + b2) + b3;
    Quotient(256 * (256 * d + b1) + b2, b3);
    Quotient(256 * d + b1, b2);
    Quotient(d, b1);
  }

  lemma Quotient(q: nat, r: nat)
    requires r < 256
    ensures (256 * q + r) / 256 == q && (256 * q + r) % 256 == r
  {
  }

  // A length below 128 is its one byte; otherwise four bytes hold 31 bits, the highest first.
  lemma LengthBytes(b0: Byte, b1: Byte, b2: Byte, b3: Byte, rest: Bytes)
    ensures b0 < 128 ==> var n := FirstLength([b0] + rest); n.Some? && n.value.0 == b0 && n.value.1 == 1
    ensures b0 >= 128 ==>
              var n := FirstLength([b0, b1, b2, b3] + rest);
              n.Some? && n.value.0 == (b0 - 128) * 16777216 + b1 * 65536 + b2 * 256 + b3 && n.value.1 == 4
  {
    assert ([b0] + rest)[0] == b0;
    var b := [b0, b1, b2, b3] + rest;
    assert b[0] == b0 && b[1] == b1 && b[2] == b2 && b[3] == b3;
  }

  // A pair with short lengths: the length of the name, that of the value, the name, the value.
  lemma PairBytes(name: Bytes, value: Bytes, rest: Bytes)
    requires |name| < 128 && |value| < 128
    ensures FirstPair([|name|, |value|] + name + value + rest) == Some(Pair(name, value, false, false))
  {
    var p := Pair(name, value, false, false);
    PairRoundTrip(p, rest);
    assert EncodePair(p) == [|name|] + [|value|] + name + value;
    assert [|name|] + [|value|] == [|name|, |value|];
  }

  lemma LengthRoundTrip(n: nat, wide: bool, rest: Bytes)
    requires Fits(n, wide)
    ensures FirstLength(EncodeLength(n, wide) + rest) == Some((n, if wide then 4 else 1))
    ensures |EncodeLength(n, wide)| == if wide then 4 else 1
  {
    hide Uint31;
    var b := EncodeLength(n, wide) + rest;
    if wide {
      Digits(n);
      assert b[0] == 128 + n / 256 / 256 / 256 && b[1] == n / 256 / 256 % 256 && b[2] == n / 256 % 256 &&
          b[3] == n % 256;
    } else {
      assert b[0] == n;
    }
  }

  lemma LengthComesFrom(b: Bytes)
    requires FirstLength(b).Some?
    ensures var (n, k) := FirstLength(b).value;
            k <= |b| && (k == 1 || k == 4) && Fits(n, k == 4) && b[..k] == EncodeLength(n, k == 4)
  {
    hide Uint31;
    if b[0] >= 128 {
      FromDigits(b[0], b[1], b[2], b[3]);
    }
  }

  lemma PairRoundTrip(p: Pair, rest: Bytes)
    requires Encodable(p)
    ensures FirstPair(EncodePair(p) + rest) == Some(p)
    ensures Size(p) == |EncodePair(p)| && (EncodePair(p) + rest)[Size(p)..] == rest
  {
    hide FirstLength, EncodeLength;
    var n, v := EncodeLength(|p.name|, p.wideName), EncodeLength(|p.value|, p.wideValue);
    var body := p.name + p.value + rest;
    LengthRoundTrip(|p.name|, p.wideName, v + body);
    LengthRoundTrip(|p.value|, p.wideValue, body);
    FiveParts(n, v, p.name, p.value, rest);
  }

  lemma FiveParts(n: Bytes, v: Bytes, name: Bytes, value: Bytes, rest: Bytes)
    ensures var body := name + value + rest; var all := n + (v + body);
            && n + v + name + value + rest == all && all[|n|..] == v + body && all[|n| + |v|..] == body
            && body[..|name|] == name && body[|name|..|name| + |value|] == value
            && all[|n| + |v| + |name| + |value|..] == rest
  {
    var body := name + value + rest;
    var all := n + (v + body);
    assert all[|n|..] == v + body;
    assert all[|n| + |v|..] == body;
    assert body[|name| + |value|..] == rest;
  }

  lemma PairComesFrom(b: Bytes)
    requires FirstPair(b).Some?
    ensures var p := FirstPair(b).value;
            Encodable(p) && Size(p) <= |b| && b == EncodePair(p) + b[Size(p)..]
  {
    hide FirstLength, EncodeLength;
    LengthComesFrom(b);
    var (n, a) := FirstLength(b).value;
    LengthComesFrom(b[a..]);
    var (v, c) := FirstLength(b[a..]).value;
    var body := b[a + c..];
    FourCuts(b, a, c, n, v);
  }

  lemma FourCuts(b: Bytes, a: nat, c: nat, n: nat, v: nat)
    requires a + c + n + v <= |b|
    ensures var body := b[a + c..];
            b == b[..a] + b[a..][..c] + body[..n] + body[n..n + v] + b[a + c + n + v..]
  {
    var body := b[a + c..];
    CutOnce(b, a);
    CutOnce(b[a..], c);
    Dropped(b, a, c);
    CutOnce(body, n);
    CutOnce(body[n..], v);
    Dropped(b, a + c, n);
    Dropped(b, a + c + n, v);
    assert body[n..][..v] == body[n..n + v];
    Regroup(b[..a], b[a..][..c], body[..n], body[n..n + v], b[a + c + n + v..]);
  }

  lemma CutOnce(b: Bytes, i: nat)
    requires i <= |b|
    ensures b == b[..i] + b[i..]
  {
  }

  lemma Dropped(b: Bytes, i: nat, j: nat)
    requires i + j <= |b|
    ensures b[i..][j..] == b[i + j..]
  {
  }

  lemma Regroup(p: Bytes, q: Bytes, r: Bytes, s: Bytes, t: Bytes)
    ensures p + (q + (r + (s + t))) == p + q + r + s + t
  {
  }

  // Decoding undoes encoding.
  lemma {:induction false} DecodeEncode(ps: seq<Pair>)
    requires AllEncodable(ps)
    ensures Decode(EncodePairs(ps)) == Some(ps)
    decreases |ps|
  {
    hide FirstPair, EncodePair, Encodable;
    if ps != [] {
      var rest := EncodePairs(ps[1..]);
      DecodeEncode(ps[1..]);
      PairRoundTrip(ps[0], rest);
      assert EncodePairs(ps) == EncodePair(ps[0]) + rest;
      assert [ps[0]] + ps[1..] == ps;
    }
  }

  // Encoding undoes decoding: the blocks of whole pairs are exactly the encodings.
  lemma {:induction false} EncodeDecode(b: Bytes)
    requires Decode(b).Some?
    ensures AllEncodable(Decode(b).value) && EncodePairs(Decode(b).value) == b
    decreases |b|
  {
    hide FirstPair, EncodePair, Encodable;
    if b != [] {
      var p := FirstPair(b).value;
      PairComesFrom(b);
      EncodeDecode(b[Size(p)..]);
      var rest := Decode(b[Size(p)..]).value;
      assert ([p] + rest)[1..] == rest;
    }
  }

  // ---------- the parser ----------

  ghost function Stored(value: Bytes): Value<Bytes> {
    if value == [] then Null else Ptr(value)
  }

  // The map in which the last pair of a name wins; an empty value is kept as NULL.
  ghost function LastWins(m: map<Bytes, Value<Bytes>>, ps: seq<Pair>): map<Bytes, Value<Bytes>>
    decreases |ps|
  {
    if ps == [] then m else LastWins(m[ps[0].name := Stored(ps[0].value)], ps[1..])
  }

  // The pair is the last of its name.
  ghost predicate IsLast(ps: seq<Pair>, i: nat) {
    i < |ps| && forall j :: i < j < |ps| ==> ps[j].name != ps[i].name
  }

  // A name's value in the result is that of its last pair, NULL for an empty one; other names
  // keep theirs.
  lemma {:induction false} LastPairDecides(m: map<Bytes, Value<Bytes>>, ps: seq<Pair>, i: nat)
    requires IsLast(ps, i)
    ensures ps[i].name in LastWins(m, ps)
    ensures ps[i].value != [] ==> LastWins(m, ps)[ps[i].name] == Ptr(ps[i].value)
    ensures ps[i].value == [] ==> LastWins(m, ps)[ps[i].name] == Null
    decreases |ps|
  {
    var m', rest := m[ps[0].name := Stored(ps[0].value)], ps[1..];
    if i > 0 {
      LastPairDecides(m', rest, i - 1);
    } else {
      AbsentStays(m', rest, ps[0].name);
    }
  }

  lemma {:induction false} AbsentStays(m: map<Bytes, Value<Bytes>>, ps: seq<Pair>, k: Bytes)
    requires forall j :: 0 <= j < |ps| ==> ps[j].name != k
    ensures k in LastWins(m, ps) <==> k in m
    ensures k in m ==> LastWins(m, ps)[k] == m[k]
    decreases |ps|
  {
    if ps != [] {
      AbsentStays(m[ps[0].name := Stored(ps[0].value)], ps[1..], k);
    }
  }

  // What a table holds after a list of pairs: the value of the last pair of each name, and
  // under other names what was there.
  ghost predicate Holds(m: map<Bytes, Value<Bytes>>, ps: seq<Pair>, m': map<Bytes, Value<Bytes>>) {
    && (forall i: nat :: IsLast(ps, i) ==>
          && ps[i].name in m'
          && (ps[i].value != [] ==> m'[ps[i].name] == Ptr(ps[i].value))
          && (ps[i].value == [] ==> m'[ps[i].name] == Null))
    && (forall k :: (forall i :: 0 <= i < |ps| ==> ps[i].name != k) ==>
          (k in m' <==> k in m) && (k in m ==> m'[k] == m[k]))
  }

  lemma LastWinsHolds(m: map<Bytes, Value<Bytes>>, ps: seq<Pair>)
    ensures Holds(m, ps, LastWins(m, ps))
  {
    forall i: nat | IsLast(ps, i)
      ensures ps[i].name in LastWins(m, ps)
      ensures ps[i].value != [] ==> LastWins(m, ps)[ps[i].name] == Ptr(ps[i].value)
      ensures ps[i].value == [] ==> LastWins(m, ps)[ps[i].name] == Null
    {
      LastPairDecides(m, ps, i);
    }
    forall k | forall i :: 0 <= i < |ps| ==> ps[i].name != k
      ensures k in LastWins(m, ps) <==> k in m
      ensures k in m ==> LastWins(m, ps)[k] == m[k]
    {
      AbsentStays(m, ps, k);
    }
  }

  // How the parser ends: at the end of the block, reading beyond it, or at a name of length
  // zero, which the string constructor takes for one to be measured up to a zero byte.
  datatype Stop = Parsed | Overrun | EmptyName

  ghost function Outcome(b: Bytes): Stop
    decreases |b|
  {
    if b == [] then Parsed
    else
      var p := FirstPair(b);
      if p.None? || Size(p.value) > |b| then Overrun
      else if p.value.name == [] then EmptyName
      else Outcome(b[Size(p.value)..])
  }

  // The pairs read before the end.
  ghost function Before(b: Bytes): seq<Pair>
    decreases |b|
  {
    if b == [] then []
    else
      var p := FirstPair(b);
      if p.None? || Size(p.value) > |b| || p.value.name == [] then []
      else [p.value] + Before(b[Size(p.value)..])
  }

  ghost predicate Named(ps: seq<Pair>) {
    forall i :: 0 <= i < |ps| ==> ps[i].name != []
  }

  lemma NamedFirst(p: Pair, ps: seq<Pair>)
    ensures Named([p] + ps) <==> p.name != [] && Named(ps)
  {
    var all := [p] + ps;
    assert all[0] == p && forall i :: 0 <= i < |ps| ==> all[i + 1] == ps[i];
  }

  // The parser stays inside a block of whole pairs and reads all of them if they have names;
  // it reads beyond every block, up to a pair without a name, that is not made of whole pairs.
  lemma {:induction false} OutcomeIsDecode(b: Bytes)
    ensures Outcome(b) == Parsed <==> Decode(b).Some? && Named(Decode(b).value)
    ensures Outcome(b) == Parsed ==> Before(b) == Decode(b).value
    ensures Outcome(b) == Overrun ==> Decode(b).None?
    ensures Outcome(b) != EmptyName ==> (Outcome(b) == Overrun <==> Decode(b).None?)
    decreases |b|
  {
    hide FirstPair;
    if b != [] && FirstPair(b).Some? && Size(FirstPair(b).value) <= |b| {
      var p := FirstPair(b).value;
      var tail := b[Size(p)..];
      OutcomeIsDecode(tail);
      if Decode(tail).Some? {
        NamedFirst(p, Decode(tail).value);
      }
    }
  }

  // The block is the encoding of the pairs read, all with names, and what follows: nothing, a
  // pair without a name, or bytes that are no whole pair.
  lemma {:induction false} StopsAtFirst(b: Bytes)
    ensures var ps := Before(b);
            && Named(ps) && AllEncodable(ps) && EncodePairs(ps) <= b
            && var rest := b[|EncodePairs(ps)|..];
               && (Outcome(b) == Parsed <==> rest == [])
               && (Outcome(b) == Overrun <==> rest != [] && FirstPair(rest).None?)
               && (Outcome(b) == EmptyName <==> rest != [] && FirstPair(rest).Some? && FirstPair(rest).value.name == [])
    decreases |b|
  {
    hide FirstPair, EncodePair, Encodable;
    if b != [] && FirstPair(b).Some? && FirstPair(b).value.name != [] {
      var p := FirstPair(b).value;
      PairComesFrom(b);
      var tail := b[Size(p)..];
      StopsAtFirst(tail);
      NamedFirst(p, Before(tail));
      OneMoreEncoded(p, Before(tail), b);
    } else if b != [] && FirstPair(b).Some? {
      PairComesFrom(b);
    }
  }

  lemma OneMoreEncoded(p: Pair, ps: seq<Pair>, b: Bytes)
    requires Encodable(p) && AllEncodable(ps) && Size(p) <= |b| && b == EncodePair(p) + b[Size(p)..]
    requires EncodePairs(ps) <= b[Size(p)..]
    ensures AllEncodable([p] + ps) && EncodePairs([p] + ps) <= b
    ensures b[|EncodePairs([p] + ps)|..] == b[Size(p)..][|EncodePairs(ps)|..]
  {
    hide EncodePair, Encodable;
    assert ([p] + ps)[1..] == ps;
    assert EncodePairs([p] + ps) == EncodePair(p) + EncodePairs(ps);
    assert |EncodePair(p)| == |b| - |b[Size(p)..]| == Size(p);
  }

  // A name of five bytes and a value of three announced, and one byte there: an overrun.
  lemma TruncatedBlock()
    ensures Outcome([5, 3, 65]) == Overrun && Decode([5, 3, 65]).None?
  {
    var b: Bytes := [5, 3, 65];
    assert b[1..][0] == 3;
    assert FirstLength(b) == Some((5, 1)) && FirstLength(b[1..]) == Some((3, 1));
  }

  // One length, from `ptr` on, unless it would be read beyond the block; the shifted bytes do
  // not overlap, so or-ing adds them.
  method ReadLength(data: Bytes, ptr: nat) returns (inside: bool, n: nat, next: nat)
    requires ptr <= |data|
    ensures inside <==> FirstLength(data[ptr..]).Some?
    ensures inside ==> FirstLength(data[ptr..]) == Some((n, next - ptr)) && ptr < next <= |data|
  {
    if ptr >= |data| {
      return false, 0, ptr;
    }
    n, next := data[ptr], ptr + 1;
    if n >= 128 {
      if ptr + 4 > |data| {
        return false, 0, ptr;
      }
      var b1: nat, b2: nat, b3: nat := data[next], data[next + 1], data[next + 2];
      n := n % 128 * 0x100_0000;
      n := n + b1 * 0x1_0000;
      n := n + b2 * 0x100;
      n := n + b3;
      next := next + 3;
    }
    inside := true;
  }

  // Where the first pair of data[ptr..] is, from its two lengths.
  lemma PairAt(data: Bytes, ptr: nat)
    requires ptr <= |data|
    ensures var n, p := FirstLength(data[ptr..]), FirstPair(data[ptr..]);
            && (n.None? ==> p.None?)
            && (n.Some? ==>
                  && ptr + n.value.1 <= |data|
                  && var v := FirstLength(data[ptr + n.value.1..]);
                  && (v.None? ==> p.None?)
                  && (v.Some? ==>
                        var at := ptr + n.value.1 + v.value.1;
                        && at <= |data|
                        && (p.Some? <==> at + n.value.0 + v.value.0 <= |data|)
                        && (p.Some? ==>
                              && at + n.value.0 + v.value.0 == ptr + Size(p.value)
                              && data[at..at + n.value.0] == p.value.name
                              && data[at + n.value.0..at + n.value.0 + v.value.0] == p.value.value)))
  {
    hide FirstLength;
    var b := data[ptr..];
    if FirstLength(b).Some? {
      var a := FirstLength(b).value.1;
      LengthComesFrom(b);
      assert b[a..] == data[ptr + a..];
      if FirstLength(b[a..]).Some? {
        LengthComesFrom(b[a..]);
        var c := FirstLength(b[a..]).value.1;
        assert b[a + c..] == data[ptr + a + c..];
      }
    }
  }

  // One turn of the loop as far as the block is read: the pair at `ptr`, if it is there.
  method ReadPair(data: Bytes, ptr: nat) returns (inside: bool, name: Bytes, value: Bytes, next: nat)
    requires ptr < |data|
    ensures inside <==> FirstPair(data[ptr..]).Some?
    ensures inside ==> var p := FirstPair(data[ptr..]).value;
            name == p.name && value == p.value && next == ptr + Size(p) <= |data|
  {
    hide FirstLength, FirstPair;
    PairAt(data, ptr);
    name, value, next := [], [], ptr;
    var nameLen, valueLen, at;
    inside, nameLen, at := ReadLength(data, ptr);
    if !inside {
      return;
    }
    inside, valueLen, at := ReadLength(data, at);
    if !inside {
      return;
    }
    if at + nameLen + valueLen > |data| {
      inside := false;
      return;
    }
    name := data[at..at + nameLen];
    at := at + nameLen;
    value := data[at..at + valueLen];
    next := at + valueLen;
  }

  // fcgi_parse_params on any bytes: it stops as Outcome says.  With room in the table, which
  // has as many entries as bytes to spare, the pairs before the stop are in it, the last of a
  // name winning; a block of whole pairs with names is read exactly to its end.
  method ParseParams(tbl: Table<Bytes>, data: Bytes) returns (ret: int, ptr: nat, stop: Stop)
    requires tbl.Valid()
    modifies tbl, tbl.slots, tbl.arrData
    ensures tbl.Valid() && ret == 0 && stop == Outcome(data) && ptr <= |data| && (stop.Parsed? <==> ptr == |data|)
    ensures |old(tbl.Entries())| + |data| <= MAX_CAP ==>
              tbl.Entries() == LastWins(old(tbl.Entries()), Before(data)) &&
              Holds(old(tbl.Entries()), Before(data), tbl.Entries())
  {
    hide Inv, HashShape.Contents, Held, IsPow2, Hash, Balanced, OwnedValue, Outcome, Before, LastWins, FirstPair, Holds;
    LastWinsHolds(tbl.Entries(), Before(data));
    ptr, ret := 0, 0;
    ghost var m0, done := tbl.Entries(), [];
    LoopStarts(data, m0);
    while ptr < |data|
      invariant ptr <= |data| && tbl.Valid()
      invariant (tbl.slots == old(tbl.slots) && tbl.arrData == old(tbl.arrData)) ||
              (fresh(tbl.slots) && fresh(tbl.arrData))
      invariant Outcome(data[ptr..]) == Outcome(data) && done + Before(data[ptr..]) == Before(data)
      invariant |m0| + |data| <= MAX_CAP ==> tbl.Entries() == LastWins(m0, done) && |tbl.Entries()| <= |m0| + ptr
    {
      OutcomeSteps(data, ptr, done);
      var inside, name, value, next := ReadPair(data, ptr);
      if !inside {
        stop := Overrun;
        return;
      }
      if name == [] {
        stop := EmptyName;
        return;
      }
      HashRun.UsedCounts(tbl);
      ghost var p, m := FirstPair(data[ptr..]).value, tbl.Entries();
      var pb := tbl.SetKeyValue(name, if value != [] then Ptr(value) else Null, true, true);
      OneMore(m, name, Stored(value));
      LastWinsSnoc(m0, done, p);
      done := done + [p];
      ptr := next;
    }
    LoopEnds(data, ptr);
    assert done + [] == done;
    stop := Parsed;
  }

  lemma OneMore(m: map<Bytes, Value<Bytes>>, k: Bytes, v: Value<Bytes>)
    ensures |m[k := v]| <= |m| + 1
  {
    assert m[k := v].Keys == m.Keys + {k};
    assert |m[k := v]| == |m[k := v].Keys| && |m| == |m.Keys|;
  }

  lemma {:induction false} LastWinsSnoc(m: map<Bytes, Value<Bytes>>, ps: seq<Pair>, p: Pair)
    ensures LastWins(m, ps + [p]) == LastWins(m, ps)[p.name := Stored(p.value)]
    decreases |ps|
  {
    if ps == [] {
      assert ps + [p] == [p];
      assert LastWins(m, [p]) == LastWins(m[p.name := Stored(p.value)], [p][1..]);
    } else {
      assert (ps + [p])[1..] == ps[1..] + [p];
      LastWinsSnoc(m[ps[0].name := Stored(ps[0].value)], ps[1..], p);
    }
  }

  lemma LoopStarts(data: Bytes, m: map<Bytes, Value<Bytes>>)
    ensures data[0..] == data && [] + Before(data) == Before(data) && LastWins(m, []) == m
  {
  }

  lemma OutcomeSteps(data: Bytes, ptr: nat, done: seq<Pair>)
    requires ptr < |data|
    ensures var b := data[ptr..]; var p := FirstPair(b);
            && (p.None? ==> Outcome(b) == Overrun && Before(b) == [])
            && (p.Some? ==> 0 < Size(p.value) <= |data| - ptr)
            && (p.Some? && p.value.name == [] ==> Outcome(b) == EmptyName && Before(b) == [])
            && (p.Some? && p.value.name != [] ==>
                  && Outcome(b) == Outcome(data[ptr + Size(p.value)..])
                  && done + Before(b) == done + [p.value] + Before(data[ptr + Size(p.value)..]))
    ensures FirstPair(data[ptr..]).None? || FirstPair(data[ptr..]).value.name == [] ==>
            done + Before(data[ptr..]) == done
  {
    var b := data[ptr..];
    if FirstPair(b).Some? {
      PairComesFrom(b);
      hide FirstPair;
      assert b[Size(FirstPair(b).value)..] == data[ptr + Size(FirstPair(b).value)..];
    }
  }

  lemma LoopEnds(data: Bytes, ptr: nat)
    requires ptr == |data|
    ensures Outcome(data[ptr..]) == Parsed && Before(data[ptr..]) == []
  {
  }

  // For every list of pairs, however their lengths are encoded: all are read if all have
  // names.
  method ParseEncoded(tbl: Table<Bytes>, data: Bytes, ghost ps: seq<Pair>) returns (ptr: nat, stop: Stop)
    requires tbl.Valid() && AllEncodable(ps) && data == EncodePairs(ps)
    modifies tbl, tbl.slots, tbl.arrData
    ensures tbl.Valid() && stop == (if Named(ps) then Parsed else EmptyName) && (Named(ps) <==> ptr == |data|)
    ensures Named(ps) && |old(tbl.Entries())| + |data| <= MAX_CAP ==> Holds(old(tbl.Entries()), ps, tbl.Entries())
  {
    hide Inv, HashShape.Contents, Held, IsPow2, Hash, Balanced, LastWins, Decode, EncodePairs, Outcome, Before, Named,
        Holds;
    DecodeEncode(ps);
    OutcomeIsDecode(data);
    var ret;
    ret, ptr, stop := ParseParams(tbl, data);
  }
}
