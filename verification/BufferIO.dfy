/**
  buffer.c and bufferio.c: a growing byte buffer, and buffered reading and writing on top
  of descriptors that transfer as much or as little as they like.
 */
module BufferIO {
  import opened Words

  // ---------- the growing buffer ----------

  class Buffer {
    var ptr: array?<Byte>
    var cap: nat
    var len: nat

    ghost predicate Valid()
      reads this
    {
      len <= cap && (ptr == null <==> cap == 0) && (ptr != null ==> ptr.Length == cap)
    }

    ghost function Contents(): (r: Bytes)
      requires Valid()
      reads this, ptr
      ensures |r| == len
    {
      if ptr == null then [] else ptr[..len]
    }

    // ef_buffer_new, with the memory it asks for.
    constructor (size: nat)
      requires size <= HALF64
      ensures Valid() && Contents() == [] && fresh(this) && (ptr != null ==> fresh(ptr))
      ensures if size == 0 then cap == 0 else LeastPow2(size, cap)
      ensures cap >= size
    {
      len := 0;
      cap := 0;
      ptr := null;
      new;
      if size != 0 {
        cap := Resize(size, 0);
        ptr := new Byte[cap];
      }
    }

    // ef_buffer_expand; `memOk` says whether the allocator has the memory.
    method Expand(need: nat, memOk: bool) returns (ret: int)
      requires Valid() && len + need <= HALF64
      modifies this
      ensures Valid() && Contents() == old(Contents()) && len == old(len)
      ensures ret == if old(cap - len) >= need || memOk then 0 else -1
      ensures ret == 0 ==> cap - len >= need
      ensures ptr != old(ptr) ==> fresh(ptr)
      ensures if ret == 0 && old(cap - len) < need then LeastPow2(len + need, cap)
              else cap == old(cap) && ptr == old(ptr)
    {
      if cap - len >= need {
        return 0;
      }
      var cap' := Resize(len + need, 0);
      if !memOk {
        return -1;
      }
      var ptr' := new Byte[cap'];
      var i := 0;
      while i < cap
        invariant ptr == old(ptr) && cap == old(cap) && len == old(len) && 0 <= i <= cap
        invariant ptr != null ==> ptr'[..i] == ptr[..i]
      {
        ptr'[i] := ptr[i];
        i := i + 1;
      }
      ptr := ptr';
      cap := cap';
      return 0;
    }

    // ef_buffer_append: the copy is retried after an expansion, once at most.
    method Append(data: Bytes, memOk: bool) returns (ret: int)
      requires Valid() && (cap - len >= |data| || len + |data| <= HALF64)
      modifies this, ptr
      ensures Valid()
      ensures ret == if old(cap - len) >= |data| || memOk then 0 else -1
      ensures Contents() == if ret == 0 then old(Contents()) + data else old(Contents())
      ensures old(cap - len) >= |data| ==> cap == old(cap)
      ensures ptr != old(ptr) ==> fresh(ptr)
      ensures old(cap - len) >= |data| ==> ptr == old(ptr)
    {
      while cap - len < |data|
        invariant Valid() && Contents() == old(Contents()) && len == old(len)
        invariant ptr != old(ptr) ==> fresh(ptr)
        invariant ptr == old(ptr) ==> cap == old(cap)
        invariant cap - len < |data| ==> ptr == old(ptr)
        invariant old(cap - len) >= |data| ==> ptr == old(ptr)
        invariant cap - len >= |data| ==> old(cap - len) >= |data| || memOk
        decreases if cap - len < |data| then 1 else 0
      {
        var r := Expand(|data|, memOk);
        if r < 0 {
          return -1;
        }
      }
      if ptr != null {
        Copy(ptr, len, data);
        len := len + |data|;
      }
      return 0;
    }

    // ef_buffer_free without destroying the object itself.
    method Clear()
      requires Valid()
      modifies this
      ensures Valid() && Contents() == [] && cap == 0
    {
      ptr, cap, len := null, 0, 0;
    }
  }

  // Memory with `data` written at an offset.
  ghost function Patched(mem: Bytes, at: nat, data: Bytes): (r: Bytes)
    requires at + |data| <= |mem|
    ensures |r| == |mem|
  {
    mem[..at] + data + mem[at + |data|..]
  }

  lemma PatchedTwice(mem: Bytes, at: nat, a: Bytes, b: Bytes)
    requires at + |a| + |b| <= |mem|
    ensures Patched(Patched(mem, at, a), at + |a|, b) == Patched(mem, at, a + b)
  {
  }

  lemma PatchedNone(mem: Bytes, at: nat)
    requires at <= |mem|
    ensures Patched(mem, at, []) == mem
  {
  }

  lemma PatchedFront(mem: Bytes, data: Bytes)
    requires |data| <= |mem|
    ensures Patched(mem, 0, data)[..|data|] == data && Patched(mem, 0, data)[|data|..] == mem[|data|..]
  {
  }

  lemma PatchedByte(mem: Bytes, at: nat, data: Bytes, b: Byte)
    requires at + |data| < |mem|
    ensures Patched(mem, at, data)[at + |data| := b] == Patched(mem, at, data + [b])
  {
  }

  // memcpy
  method Copy(dst: array<Byte>, at: nat, data: Bytes)
    requires at + |data| <= dst.Length
    modifies dst
    ensures dst[..] == Patched(old(dst[..]), at, data)
  {
    hide Patched;
    var i := 0;
    PatchedNone(dst[..], at);
    while i < |data|
      invariant 0 <= i <= |data|
      invariant dst[..] == Patched(old(dst[..]), at, data[..i])
    {
      PatchedByte(old(dst[..]), at, data[..i], data[i]);
      assert data[..i] + [data[i]] == data[..i + 1];
      dst[at + i] := data[i];
      i := i + 1;
    }
    assert data[..i] == data;
  }

  // ---------- descriptors ----------

  const EINTR: int := 4

  // What a read or write call does: transfers some bytes, stalls and is to be tried again, or
  // fails for good.  A call may answer zero or a negative number when it stalls or fails.
  datatype Answer = Chunk(n: nat) | Stalls(ret: int, errno: int) | Fails(ret: int, errno: int)

  // For reading, zero without an error number is the end of the stream.
  ghost predicate Sane(plan: seq<Answer>, reading: bool) {
    forall a :: a in plan ==>
      && (a.Stalls? ==> a.ret <= 0 && (a.errno == 0 || a.errno == 4) && !(reading && a.ret == 0 && a.errno == 0))
      && (a.Fails? ==> a.ret <= 0 && a.errno != 0 && a.errno != 4)
  }

  function Least(a: nat, b: nat): nat {
    if a < b then a else b
  }

  // How much one successful call transfers: something, if there is something.
  function Part(plan: seq<Answer>, max: nat): nat {
    if plan == [] || !plan[0].Chunk? then max
    else if plan[0].n == 0 then Least(1, max)
    else Least(plan[0].n, max)
  }

  // A descriptor to read from: its bytes, how the coming calls will go, how many have failed
  // for good, and what the last of these answered.  Past the plan every call transfers all it
  // can.
  class Source {
    var rest: Bytes
    var plan: seq<Answer>
    var failures: nat
    var failedWith: int

    constructor (rest: Bytes, plan: seq<Answer>)
      requires Sane(plan, true)
      ensures this.rest == rest && this.plan == plan && failures == 0
    {
      this.rest, this.plan, failures, failedWith := rest, plan, 0, 0;
    }

    method Read(max: nat) returns (ret: int, errno: int, got: Bytes)
      requires max > 0 && Sane(plan, true)
      modifies this
      ensures Sane(plan, true) && |plan| == (if old(plan) == [] then 0 else |old(plan)| - 1)
      ensures got + rest == old(rest) && |got| <= max
      ensures ret > 0 ==> ret == |got| && errno == 0
      ensures ret <= 0 ==> got == []
      ensures ret == 0 && errno == 0 ==> rest == []
      ensures ret < 0 || (ret == 0 && errno != 0) ==> old(plan) != []
      ensures failures == old(failures) + (if ret <= 0 && errno != 0 && errno != EINTR then 1 else 0)
      ensures failures != old(failures) ==> failedWith == ret
      ensures old(plan) == [] ==> ret == Least(max, |old(rest)|) && errno == 0
    {
      var a := if plan == [] then Chunk(max) else plan[0];
      var k := Least(Part(plan, max), |rest|);
      plan := if plan == [] then [] else plan[1..];
      match a
      case Chunk(_) =>
        got := rest[..k];
        rest := rest[k..];
        return k, 0, got;
      case Stalls(r, e) =>
        return r, e, [];
      case Fails(r, e) =>
        failures, failedWith := failures + 1, r;
        return r, e, [];
    }
  }

  // What is left of a stream after some of it went.
  ghost predicate IsRestOf(rest: Bytes, all: Bytes) {
    |rest| <= |all| && rest == all[|all| - |rest|..]
  }

  lemma RestOfRest(a: Bytes, b: Bytes, c: Bytes)
    requires IsRestOf(a, b) && IsRestOf(b, c)
    ensures IsRestOf(a, c)
  {
  }

  lemma RestIsRest(b: Bytes)
    ensures IsRestOf(b, b)
  {
  }

  // The place in a stream moves on.
  lemma MovesOn(rest: Bytes, from: nat, n: nat)
    requires from <= |rest| && n <= |rest[from..]|
    ensures from + n <= |rest| && rest[from..][n..] == rest[from + n..]
  {
  }

  // ef_safe_read into buf + at.  After a failure the bytes of the attempt are lost; the answer
  // is the call's own, which may be zero.
  method SafeRead(src: Source, buf: array<Byte>, at: nat, len: nat, cap: nat) returns (ret: int)
    requires Sane(src.plan, true) && at + len <= buf.Length && at + cap <= buf.Length
    modifies src, buf
    ensures Sane(src.plan, true) && |src.plan| <= |old(src.plan)|
    ensures src.failures == old(src.failures) || (src.failures == old(src.failures) + 1 && ret <= 0 &&
            ret == src.failedWith && |src.plan| < |old(src.plan)|)
    ensures src.failures == old(src.failures) ==>
              && 0 <= ret <= |old(src.rest)| && ret <= (if cap < len then len else cap) &&
                  (ret < len ==> ret == |old(src.rest)|)
              && src.rest == old(src.rest)[ret..]
              && buf[..] == Patched(old(buf[..]), at, old(src.rest)[..ret])
    ensures IsRestOf(src.rest, old(src.rest))
    ensures len == 0 ==> src.plan == old(src.plan) && src.failures == old(src.failures)
    ensures len > 0 && old(src.plan) != [] ==> |src.plan| < |old(src.plan)|
    ensures len > 0 && old(src.plan) == [] ==> ret == Least(if cap < len then len else cap, |old(src.rest)|)
  {
    hide Patched;
    var most := if cap < len then len else cap;
    var offset := 0;
    PatchedNone(buf[..], at);
    while offset < len
      invariant 0 <= offset <= most && offset <= |old(src.rest)| && Sane(src.plan, true) &&
              |src.plan| <= |old(src.plan)|
      invariant src.rest == old(src.rest)[offset..] && src.failures == old(src.failures)
      invariant buf[..] == Patched(old(buf[..]), at, old(src.rest)[..offset])
      invariant len == 0 ==> src.plan == old(src.plan)
      invariant offset > 0 && old(src.plan) != [] ==> |src.plan| < |old(src.plan)|
      invariant old(src.plan) == [] ==> offset == 0 || offset == Least(most, |old(src.rest)|)
      decreases |src.plan|, most - offset
    {
      var r, errno, got := src.Read(most - offset);
      if r > 0 {
        Copy(buf, at + offset, got);
        PatchedTwice(old(buf[..]), at, old(src.rest)[..offset], got);
        assert old(src.rest)[..offset] + got == old(src.rest)[..offset + r];
        offset := offset + r;
      } else if r == 0 && errno == 0 {
        break;
      } else if r <= 0 && errno != 0 && errno != EINTR {
        return r;
      }
    }
    return offset;
  }

  // ---------- the reader ----------

  // What a refill adds to the bytes that were buffered.
  lemma Joined(u: Bytes, rest: Bytes, len: nat, n: nat)
    requires |u| < len && n == Least(len - |u|, |rest|)
    ensures var k := Least(len, |u + rest|);
            k == |u| + n && u + rest[..n] == (u + rest)[..k] && rest[n..] == (u + rest)[k..]
  {
  }

  lemma Slice(mem: Bytes, len: nat, from: nat, n: nat)
    requires from + n <= len <= |mem|
    ensures mem[from..from + n] == mem[..len][from..][..n]
  {
  }

  lemma Fetched(rest: Bytes, all: nat, n: nat)
    requires n <= all <= |rest|
    ensures rest[..all][..n] == rest[..n] && rest[..all][n..] + rest[all..] == rest[n..]
  {
  }

  lemma Ahead(u: Bytes, rest: Bytes, len: nat)
    requires len <= |u|
    ensures Least(len, |u + rest|) == len && u[..len] == (u + rest)[..len] && u[len..] + rest == (u + rest)[len..]
  {
  }

  class Reader {
    const src: Source
    const buffer: Buffer
    var offset: nat

    ghost predicate Valid()
      reads this, src, buffer
    {
      buffer.Valid() && offset <= buffer.len && Sane(src.plan, true)
    }

    // The bytes fetched and not yet handed out.
    ghost function Unread(): Bytes
      requires Valid()
      reads this, src, buffer, buffer.ptr
    {
      buffer.Contents()[offset..]
    }

    // What the caller has still to see.
    ghost function Stream(): Bytes
      requires Valid()
      reads this, src, buffer, buffer.ptr
    {
      Unread() + src.rest
    }

    // ef_bio_reader_new
    constructor (src: Source, size: nat)
      requires size <= HALF64 && Sane(src.plan, true)
      ensures Valid() && this.src == src && Unread() == [] && Stream() == src.rest
      ensures fresh(this) && fresh(buffer) && (buffer.ptr != null ==> fresh(buffer.ptr))
      ensures buffer.cap >= size
    {
      hide LeastPow2, IsPow2;
      this.src := src;
      buffer := new Buffer(size);
      offset := 0;
    }

    // ef_bio_read.  The bytes handed out are the next ones of the stream, as many as asked
    // for or all there are; the value returned leaves out those that were buffered when the
    // buffer had to be refilled, so it is the number of bytes delivered exactly if no refill was
    // needed or nothing was buffered.  A descriptor without partial transfers fills the buffer.
    method Read(dst: array<Byte>, len: nat) returns (ret: int)
      requires Valid() && len <= dst.Length && dst != buffer.ptr
      modifies this, src, buffer, buffer.ptr, dst
      ensures Valid() && buffer.cap == old(buffer.cap) && buffer.ptr == old(buffer.ptr) && |src.plan| <= |old(src.plan)|
      ensures src.failures == old(src.failures) ||
              (src.failures == old(src.failures) + 1 && ret == src.failedWith <= 0 && |src.plan| < |old(src.plan)|)
      ensures src.failures == old(src.failures) ==>
                var n := Least(len, |old(Stream())|);
                && dst[..] == Patched(old(dst[..]), 0, old(Stream())[..n])
                && Stream() == old(Stream())[n..]
                && (ret == if len <= |old(Unread())| then len else n - |old(Unread())|)
                && (ret == n <==> len <= |old(Unread())| || old(Unread()) == [])
      ensures src.failures != old(src.failures) ==> Unread() == [] && IsRestOf(src.rest, old(src.rest))
      ensures old(src.plan) == [] && 0 < len - |old(Unread())| <= buffer.cap / 4 ==>
                |Unread()| == Least(buffer.cap, |old(src.rest)|) - ret
      ensures len - |old(Unread())| > buffer.cap / 4 && len > |old(Unread())| ==> Unread() == []
    {
      hide Patched, Buffer.Contents;
      ghost var u, rest, start := Unread(), src.rest, dst[..];
      if len <= buffer.len - offset {
        Ahead(u, rest, len);
        CopyOut(dst, len);
        offset := offset + len;
        return len;
      }
      var have := buffer.len - offset;
      CopyOut(dst, have);
      assert u[..have] == u;
      buffer.len := 0;
      offset := 0;
      ret := Refill(dst, have, len - have);
      if src.failures == old(src.failures) {
        Joined(u, rest, len, ret);
        PatchedTwice(start, 0, u, rest[..ret]);
      }
    }

    // The copy of the first buffered bytes to the caller.
    method CopyOut(dst: array<Byte>, n: nat)
      requires Valid() && n <= |Unread()| && n <= dst.Length && dst != buffer.ptr
      modifies dst
      ensures dst[..] == Patched(old(dst[..]), 0, Unread()[..n])
    {
      hide Patched;
      PatchedNone(dst[..], 0);
      if n > 0 {
        Slice(buffer.ptr[..], buffer.len, offset, n);
        assert buffer.ptr[..][..buffer.len] == buffer.ptr[..buffer.len];
        Copy(dst, 0, buffer.ptr[offset..offset + n]);
      }
    }

    // The refill branches of ef_bio_read: what is missing goes straight to the caller when it
    // is much, and through the buffer when it is little.
    method Refill(dst: array<Byte>, have: nat, need: nat) returns (ret: int)
      requires Valid() && buffer.len == 0 && offset == 0 && 0 < need && have + need <= dst.Length && dst != buffer.ptr
      modifies this, src, buffer, buffer.ptr, dst
      ensures Valid() && buffer.cap == old(buffer.cap) && buffer.ptr == old(buffer.ptr) && |src.plan| <= |old(src.plan)|
      ensures src.failures == old(src.failures) ||
              (src.failures == old(src.failures) + 1 && ret == src.failedWith <= 0 && |src.plan| < |old(src.plan)|)
      ensures src.failures == old(src.failures) ==>
                && ret == Least(need, |old(src.rest)|) && Stream() == old(src.rest)[ret..]
                && dst[..] == Patched(old(dst[..]), have, old(src.rest)[..ret])
      ensures src.failures != old(src.failures) ==> Unread() == [] && IsRestOf(src.rest, old(src.rest))
      ensures old(src.plan) == [] && need <= buffer.cap / 4 ==>
                buffer.len - offset == Least(buffer.cap, |old(src.rest)|) - ret
      ensures need > buffer.cap / 4 ==> Unread() == []
    {
      hide Patched;
      if need > buffer.cap / 4 {
        ret := SafeRead(src, dst, have, need, 0);
        return ret;
      }
      ret := FillBuffer(dst, have, need);
    }

    method FillBuffer(dst: array<Byte>, have: nat, need: nat) returns (ret: int)
      requires Valid() && buffer.len == 0 && offset == 0 && 0 < need <= buffer.cap && have + need <= dst.Length &&
              dst != buffer.ptr
      modifies this, src, buffer, buffer.ptr, dst
      ensures Valid() && buffer.cap == old(buffer.cap) && buffer.ptr == old(buffer.ptr) && |src.plan| <= |old(src.plan)|
      ensures src.failures == old(src.failures) ||
              (src.failures == old(src.failures) + 1 && ret == src.failedWith <= 0 && |src.plan| < |old(src.plan)|)
      ensures src.failures == old(src.failures) ==>
                && ret == Least(need, |old(src.rest)|) && Stream() == old(src.rest)[ret..]
                && dst[..] == Patched(old(dst[..]), have, old(src.rest)[..ret])
      ensures src.failures != old(src.failures) ==> Unread() == [] && IsRestOf(src.rest, old(src.rest))
      ensures old(src.plan) == [] ==> buffer.len - offset == Least(buffer.cap, |old(src.rest)|) - ret
    {
      hide Patched;
      ghost var rest, mem := src.rest, buffer.ptr[..];
      var fetched := SafeRead(src, buffer.ptr, 0, need, buffer.cap);
      if fetched < 0 {
        return fetched;
      }
      buffer.len := fetched;
      ret := if need > fetched then fetched else need;
      if src.failures == old(src.failures) {
        PatchedFront(mem, rest[..fetched]);
        assert buffer.ptr[..fetched] == rest[..fetched];
        Fetched(rest, fetched, ret);
        assert buffer.ptr[..ret] == buffer.ptr[..fetched][..ret];
      }
      Copy(dst, have, buffer.ptr[..ret]);
      offset := ret;
    }

    // Nothing can be fetched any more: the stream has ended and every call answers so, or
    // there is no buffer to fetch into.
    ghost predicate Dry()
      reads this, src, buffer
    {
      (src.plan == [] && src.rest == []) || buffer.cap == 0
    }

    // One round of the loop of ef_bio_reader_skip, with an empty buffer.  Once the reader is
    // dry a round makes no progress, and leaves it as it is.
    method SkipRound(remain: nat) returns (fetched: int)
      requires Valid() && buffer.len == 0 && offset == 0 && remain > 0
      modifies src, buffer.ptr
      ensures Valid() && src.failures >= old(src.failures) && |src.plan| <= |old(src.plan)| && fetched <= remain
      ensures src.failures == old(src.failures) || (src.failures == old(src.failures) + 1 && fetched <= 0 &&
              fetched == src.failedWith && |src.plan| < |old(src.plan)|)
      ensures src.failures == old(src.failures) ==>
                && 0 <= fetched <= |old(src.rest)| && src.rest == old(src.rest)[fetched..]
                && (fetched == 0 ==> src.rest == [] || buffer.cap == 0)
                && (fetched == 0 && old(src.plan) != [] ==> |src.plan| < |old(src.plan)| || buffer.cap == 0)
      ensures IsRestOf(src.rest, old(src.rest))
      ensures old(Dry()) ==>
              && fetched == 0 && Dry()
              && src.failures == old(src.failures) && src.plan == old(src.plan) && src.rest == old(src.rest)
    {
      var need := if remain < buffer.cap then remain else buffer.cap;
      if buffer.ptr == null {
        return 0;
      }
      fetched := SafeRead(src, buffer.ptr, 0, need, need);
    }

    // So the loop never ends once it is dry: after any number of rounds as much remains.
    method SkipRounds(remain: nat, rounds: nat) returns (left: int)
      requires Valid() && Dry() && buffer.len == 0 && offset == 0 && remain > 0
      modifies src, buffer.ptr
      ensures Valid() && Dry() && left == remain
    {
      left := remain;
      for i := 0 to rounds
        invariant Valid() && Dry() && buffer.len == 0 && offset == 0 && left == remain
      {
        var fetched := SkipRound(left);
        left := left - fetched;
      }
    }

    // The loop of ef_bio_reader_skip, with an empty buffer: `stuck` says that it does not end.
    method SkipLoop(len: nat) returns (failed: int, stuck: bool)
      requires Valid() && buffer.len == 0 && offset == 0
      modifies src, buffer.ptr
      ensures Valid() && |src.plan| <= |old(src.plan)|
      ensures src.failures >= old(src.failures) && failed <= 0 &&
              (failed < 0 ==> src.failures > old(src.failures) && failed == src.failedWith)
      ensures stuck ==> Dry() && failed == 0
      ensures src.failures == old(src.failures) ==>
                && (stuck <==> len > 0 && (buffer.cap == 0 || len > |old(src.rest)|))
                && (!stuck ==> src.rest == old(src.rest)[len..])
      ensures IsRestOf(src.rest, old(src.rest))
    {
      hide IsRestOf;
      ghost var rest := src.rest;
      RestIsRest(rest);
      var remain := len;
      ghost var gone := 0;
      while remain > 0
        invariant Valid() && 0 <= remain <= len && |src.plan| <= |old(src.plan)| && src.failures >= old(src.failures)
        invariant IsRestOf(src.rest, rest)
        invariant 0 <= gone && gone + remain == len
        invariant src.failures == old(src.failures) ==> |src.rest| == |rest| - gone && src.rest == rest[gone..]
        invariant len > 0 && buffer.cap == 0 ==> remain > 0
        decreases |src.plan|, remain
      {
        var before := src.failures;
        ghost var now := src.rest;
        var fetched := SkipRound(remain);
        RestOfRest(src.rest, now, rest);
        if src.failures == old(src.failures) {
          MovesOn(rest, gone, fetched);
        }
        if fetched < 0 {
          return fetched, false;
        }
        remain := remain - fetched;
        gone := gone + fetched;
        if fetched == 0 && src.failures == before && (src.plan == [] || buffer.cap == 0) {
          return 0, true;
        }
      }
      return 0, false;
    }

    // ef_bio_reader_skip; `stuck` says that it does not return.  Without failures that is the
    // case exactly when more is to be skipped than the stream still has.
    method Skip(len: nat) returns (ret: int, stuck: bool)
      requires Valid()
      modifies this, src, buffer, buffer.ptr
      ensures Valid() && buffer.cap == old(buffer.cap) && buffer.ptr == old(buffer.ptr) && |src.plan| <= |old(src.plan)|
      ensures src.failures >= old(src.failures)
      ensures ret < 0 ==> src.failures > old(src.failures) && ret == src.failedWith
      ensures stuck ==> Dry() && buffer.len == 0 && offset == 0
      ensures src.failures == old(src.failures) ==>
                && (stuck <==> len > |old(Unread())| && (buffer.cap == 0 || len > |old(Stream())|))
                && (!stuck ==> ret == len && Stream() == old(Stream())[len..])
      ensures IsRestOf(src.rest, old(src.rest))
    {
      hide IsRestOf, Buffer.Contents;
      ghost var u, rest := Unread(), src.rest;
      RestIsRest(rest);
      if len <= buffer.len - offset {
        Ahead(u, rest, len);
        offset := offset + len;
        return len, false;
      }
      var remain := len + offset - buffer.len;
      buffer.len := 0;
      offset := 0;
      var failed;
      failed, stuck := SkipLoop(remain);
      if failed < 0 || stuck {
        return failed, stuck;
      }
      if src.failures == old(src.failures) {
        Beyond(u, rest, len);
      }
      return len, false;
    }
  }

  lemma Beyond(u: Bytes, rest: Bytes, len: nat)
    requires |u| <= len && len - |u| <= |rest|
    ensures len <= |u + rest| && (u + rest)[len..] == [] + rest[len - |u|..]
  {
  }

  // ---------- a whole reading session ----------

  datatype Want = Take(n: nat) | Pass(n: nat)

  // The plain meaning of a session: each take gets the next bytes of the stream, each pass
  // drops them.
  function Answers(stream: Bytes, wants: seq<Want>): seq<Bytes>
    decreases |wants|
  {
    if wants == [] then []
    else
      var k := Least(wants[0].n, |stream|);
      (if wants[0].Take? then [stream[..k]] else []) + Answers(stream[k..], wants[1..])
  }

  // What the session leaves of the stream.
  function After(stream: Bytes, wants: seq<Want>): Bytes
    decreases |wants|
  {
    if wants == [] then stream else After(stream[Least(wants[0].n, |stream|)..], wants[1..])
  }

  // Nothing is skipped beyond the end of the stream.
  predicate Fits(stream: Bytes, wants: seq<Want>)
    decreases |wants|
  {
    wants == [] || ((wants[0].Pass? ==> wants[0].n <= |stream|) &&
        Fits(stream[Least(wants[0].n, |stream|)..], wants[1..]))
  }

  // One request of a session; a caller works out how many bytes it was handed from what was
  // buffered before the call.
  method Request(reader: Reader, want: Want) returns (got: seq<Bytes>, ok: bool)
    requires reader.Valid() && reader.buffer.cap > 0
    requires want.Pass? ==> want.n <= |reader.Stream()|
    modifies reader, reader.src, reader.buffer, reader.buffer.ptr
    ensures reader.Valid() && reader.buffer.cap > 0 && reader.buffer.ptr == old(reader.buffer.ptr)
    ensures ok <==> reader.src.failures == old(reader.src.failures)
    ensures ok ==> var k := Least(want.n, |old(reader.Stream())|);
                   && got == (if want.Take? then [old(reader.Stream())[..k]] else [])
                   && reader.Stream() == old(reader.Stream())[k..]
  {
    hide Patched;
    got := [];
    var before := reader.src.failures;
    if want.Pass? {
      var r, stuck := reader.Skip(want.n);
      return got, reader.src.failures == before;
    }
    var dst := new Byte[want.n];
    ghost var start, k := dst[..], Least(want.n, |reader.Stream()|);
    var unread := reader.buffer.len - reader.offset;
    var r := reader.Read(dst, want.n);
    if reader.src.failures != before {
      return got, false;
    }
    PatchedFront(start, old(reader.Stream())[..k]);
    got := [dst[..if want.n <= unread then r else unread + r]];
    ok := true;
  }

  // Whatever the sizes of the transfers and of the buffer, an error-free session reads like
  // the plain byte stream.
  method ReadSession(reader: Reader, wants: seq<Want>) returns (log: seq<Bytes>, ok: bool)
    requires reader.Valid() && reader.buffer.cap > 0 && Fits(reader.Stream(), wants)
    modifies reader, reader.src, reader.buffer, reader.buffer.ptr
    ensures reader.Valid()
    ensures ok <==> reader.src.failures == old(reader.src.failures)
    ensures ok ==> log == Answers(old(reader.Stream()), wants) && reader.Stream() == After(old(reader.Stream()), wants)
  {
    hide Answers, After, Fits, Reader.Valid, Reader.Stream;
    log := [];
    ghost var stream := reader.Stream();
    var i := 0;
    StartOf(stream, wants);
    while i < |wants|
      invariant 0 <= i <= |wants| && reader.Valid() && reader.buffer.cap > 0 &&
              reader.src.failures == old(reader.src.failures)
      invariant reader.buffer.ptr == old(reader.buffer.ptr)
      invariant Fits(reader.Stream(), wants[i..])
      invariant log + Answers(reader.Stream(), wants[i..]) == Answers(stream, wants)
      invariant After(reader.Stream(), wants[i..]) == After(stream, wants)
    {
      OneWant(reader.Stream(), wants, i);
      var got, fine := Request(reader, wants[i]);
      if !fine {
        return log, false;
      }
      log := log + got;
      i := i + 1;
    }
    EndOf(reader.Stream(), wants);
    ok := true;
  }

  lemma StartOf(stream: Bytes, wants: seq<Want>)
    ensures wants[0..] == wants && [] + Answers(stream, wants) == Answers(stream, wants)
  {
  }

  lemma OneWant(stream: Bytes, wants: seq<Want>, i: nat)
    requires i < |wants| && Fits(stream, wants[i..])
    ensures var k := Least(wants[i].n, |stream|);
            && (wants[i].Pass? ==> wants[i].n <= |stream|)
            && Fits(stream[k..], wants[i + 1..])
            && After(stream, wants[i..]) == After(stream[k..], wants[i + 1..])
            && Answers(stream, wants[i..]) == (if wants[i].Take? then [stream[..k]]
                else []) + Answers(stream[k..], wants[i + 1..])
  {
    assert wants[i..][0] == wants[i] && wants[i..][1..] == wants[i + 1..];
  }

  lemma EndOf(stream: Bytes, wants: seq<Want>)
    ensures Answers(stream, wants[|wants|..]) == [] && After(stream, wants[|wants|..]) == stream
  {
  }

  // Three bytes, of which one has been read: two are buffered.
  method ReadOne() returns (reader: Reader, first: int)
    ensures fresh(reader) && fresh(reader.src) && fresh(reader.buffer)
    ensures reader.buffer.ptr != null ==> fresh(reader.buffer.ptr)
    ensures reader.Valid() && reader.src.plan == [] && first == 1
    ensures reader.Unread() == [2, 3] && reader.Stream() == [2, 3]
  {
    hide Patched, Buffer.Contents;
    var src := new Source([1, 2, 3], []);
    reader := new Reader(src, 8);
    var dst := new Byte[1];
    first := reader.Read(dst, 1);
    assert [1, 2, 3][1..] == [2, 3];
    assert reader.Stream() == [2, 3];
    assert |reader.Unread()| == 2;
    Whole(reader.Unread(), src.rest);
  }

  lemma Whole(u: Bytes, rest: Bytes)
    requires |u| == |u + rest|
    ensures u == u + rest
  {
  }

  // Read on for as many as three bytes, the call delivers the two that are left, and
  // answers zero.
  method ShortAnswer() returns (second: int, dst: array<Byte>)
    ensures second == 0 && dst.Length == 3 && dst[..2] == [2, 3]
  {
    hide Buffer.Contents;
    var reader, _ := ReadOne();
    dst := new Byte[3];
    ghost var before := dst[..];
    second := reader.Read(dst, 3);
    assert [2, 3][..2] == [2, 3];
    PatchedFront(before, [2, 3]);
  }

  // ---------- the writer ----------

  // A descriptor to write to: what it has taken, how the coming calls will go, how many have
  // failed for good, and what the last of these answered.
  class Sink {
    var sent: Bytes
    var plan: seq<Answer>
    var failures: nat
    var failedWith: int

    constructor (plan: seq<Answer>)
      requires Sane(plan, false)
      ensures sent == [] && this.plan == plan && failures == 0
    {
      sent, this.plan, failures, failedWith := [], plan, 0, 0;
    }

    method Write(data: Bytes) returns (ret: int, errno: int)
      requires data != [] && Sane(plan, false)
      modifies this
      ensures Sane(plan, false) && |plan| == (if old(plan) == [] then 0 else |old(plan)| - 1)
      ensures ret > 0 ==> ret <= |data| && sent == old(sent) + data[..ret] && errno == 0
      ensures ret <= 0 ==> sent == old(sent) && old(plan) != []
      ensures failures == old(failures) + (if ret <= 0 && errno != 0 && errno != EINTR then 1 else 0)
      ensures failures != old(failures) ==> failedWith == ret
    {
      var a := if plan == [] then Chunk(|data|) else plan[0];
      var k := Part(plan, |data|);
      plan := if plan == [] then [] else plan[1..];
      match a
      case Chunk(_) =>
        sent := sent + data[..k];
        return k, 0;
      case Stalls(r, e) =>
        return r, e;
      case Fails(r, e) =>
        failures, failedWith := failures + 1, r;
        return r, e;
    }
  }

  // ef_safe_write; `done` counts the bytes the descriptor took.  The answer to a failure is
  // the call's own, which may be zero.
  method SafeWrite(sink: Sink, data: Bytes) returns (ret: int, ghost done: nat)
    requires Sane(sink.plan, false)
    modifies sink
    ensures Sane(sink.plan, false) && done <= |data| && sink.sent == old(sink.sent) + data[..done]
    ensures if sink.failures == old(sink.failures) then ret == done == |data|
            else sink.failures == old(sink.failures) + 1 && ret == sink.failedWith <= 0 && done < |data|
  {
    var offset := 0;
    while offset < |data|
      invariant 0 <= offset <= |data| && Sane(sink.plan, false) && sink.failures == old(sink.failures)
      invariant sink.sent == old(sink.sent) + data[..offset]
      decreases |sink.plan|, |data| - offset
    {
      var r, errno := sink.Write(data[offset..]);
      if r > 0 {
        assert data[..offset] + data[offset..][..r] == data[..offset + r];
        offset := offset + r;
      } else if r <= 0 && errno != 0 && errno != EINTR {
        return r, offset;
      }
    }
    return offset, offset;
  }

  class Writer {
    const sink: Sink
    const buffer: Buffer

    ghost predicate Valid()
      reads this, sink, buffer
    {
      buffer.Valid() && Sane(sink.plan, false)
    }

    // Everything written so far: what was sent and what waits in the buffer.
    ghost function Written(): Bytes
      requires Valid()
      reads this, sink, buffer, buffer.ptr
    {
      sink.sent + buffer.Contents()
    }

    // ef_bio_writer_new
    constructor (sink: Sink, size: nat)
      requires size <= HALF64 && Sane(sink.plan, false)
      ensures Valid() && this.sink == sink && buffer.Contents() == [] && Written() == sink.sent
      ensures fresh(this) && fresh(buffer) && (buffer.ptr != null ==> fresh(buffer.ptr))
    {
      this.sink := sink;
      buffer := new Buffer(size);
    }

    // ef_bio_write; `flushed` and `done` count the bytes of the buffer and of the data that the
    // descriptor took.  When the only failure is answered with a negative number it took a
    // prefix of what was written; a failed flush answered with zero loses the buffer.
    method Write(data: Bytes) returns (ret: int, ghost flushed: nat, ghost done: nat)
      requires Valid()
      modifies sink, buffer, buffer.ptr
      ensures Valid() && buffer.ptr == old(buffer.ptr) && buffer.cap == old(buffer.cap) &&
              sink.failures >= old(sink.failures)
      ensures flushed <= |old(buffer.Contents())| && done <= |data|
      ensures sink.sent == old(sink.sent) + old(buffer.Contents())[..flushed] + data[..done]
      ensures ret < 0 ==> sink.failures > old(sink.failures)
      ensures done < |data| && sink.failures > old(sink.failures) && buffer.Contents() == [] ==> ret == sink.failedWith
      ensures ret < 0 && buffer.Contents() != [] ==> ret == -1 && sink.failedWith < 0
      ensures sink.failures == old(sink.failures) ==> ret == |data| && Written() == old(Written()) + data
      ensures ret < 0 && sink.failures == old(sink.failures) + 1 ==> flushed == |old(buffer.Contents())| || done == 0
      ensures ret < 0 ==> (buffer.Contents() == old(buffer.Contents()) && done == 0) || buffer.Contents() == []
      ensures var large := |old(buffer.Contents())| + |data| > buffer.cap || |data| > buffer.cap / 4;
              if large then sink.failures == old(sink.failures) ==> buffer.Contents() == []
              else sink.sent == old(sink.sent) && ret == |data|
    {
      flushed, done := 0, 0;
      ghost var old0 := buffer.Contents();
      assert old0[..0] == [] && data[..0] == [];
      if buffer.len + |data| > buffer.cap || buffer.cap / 4 < |data| {
        if buffer.len != 0 {
          var r;
          r, flushed := SafeWrite(sink, buffer.ptr[..buffer.len]);
          if r < 0 {
            return -1, flushed, 0;
          }
          buffer.len := 0;
        }
        ghost var sent := sink.sent;
        ret, done := SafeWrite(sink, data);
        assert old0[..|old0|] == old0 && data[..|data|] == data;
        return ret, flushed, done;
      }
      var r := buffer.Append(data, true);
      if r < 0 {
        // there is room, so this answer does not come
        assert false;
      }
      return |data|, 0, 0;
    }

    // ef_bio_writer_flush; `done` counts the bytes the descriptor took.
    method Flush() returns (ret: int, ghost done: nat)
      requires Valid()
      modifies sink, buffer
      ensures Valid() && buffer.ptr == old(buffer.ptr) && buffer.cap == old(buffer.cap)
      ensures done <= |old(buffer.Contents())| && sink.sent == old(sink.sent) + old(buffer.Contents())[..done]
      ensures if sink.failures == old(sink.failures) then ret == done == |old(buffer.Contents())|
              else sink.failures == old(sink.failures) + 1 && ret == sink.failedWith <= 0 &&
                   done < |old(buffer.Contents())|
      ensures buffer.Contents() == if ret < 0 then old(buffer.Contents()) else []
      ensures sink.failures == old(sink.failures) ==> sink.sent == old(Written())
    {
      if buffer.len == 0 {
        assert buffer.Contents()[..0] == [];
        return 0, 0;
      }
      ghost var b := buffer.Contents();
      var written;
      written, done := SafeWrite(sink, buffer.ptr[..buffer.len]);
      assert b[..|b|] == b;
      if written < 0 {
        return written, done;
      }
      buffer.len := 0;
      return written, done;
    }
  }

  // A failed flush tried again: what the first try sent is sent twice, so the descriptor has
  // what was written exactly if the first try sent nothing.
  method FlushAgain(writer: Writer) returns (first: int, second: int, ghost done: nat)
    requires writer.Valid()
    modifies writer.sink, writer.buffer
    ensures writer.Valid()
    ensures first < 0 && writer.sink.failures == old(writer.sink.failures) + 1 ==>
              && done < |old(writer.buffer.Contents())|
              && writer.sink.sent == old(writer.sink.sent) + old(writer.buffer.Contents())[..done] +
                  old(writer.buffer.Contents())
              && (writer.sink.sent == old(writer.Written()) <==> done == 0)
  {
    ghost var again;
    first, done := writer.Flush();
    second := first;
    if first < 0 {
      second, again := writer.Flush();
    }
  }

  function Concat(parts: seq<Bytes>): Bytes
    decreases |parts|
  {
    if parts == [] then [] else parts[0] + Concat(parts[1..])
  }

  lemma {:induction false} ConcatLast(parts: seq<Bytes>, b: Bytes)
    ensures Concat(parts + [b]) == Concat(parts) + b
    decreases |parts|
  {
    if parts == [] {
      assert parts + [b] == [b];
    } else {
      ConcatLast(parts[1..], b);
      assert (parts + [b])[1..] == parts[1..] + [b];
    }
  }

  // An error-free session: the descriptor gets all that was written, in order.
  method WriteSession(writer: Writer, parts: seq<Bytes>) returns (ok: bool)
    requires writer.Valid()
    modifies writer.sink, writer.buffer, writer.buffer.ptr
    ensures writer.Valid() && (ok <==> writer.sink.failures == old(writer.sink.failures))
    ensures ok ==> writer.sink.sent == old(writer.Written()) + Concat(parts) && writer.buffer.Contents() == []
  {
    hide Concat, Writer.Written, Buffer.Contents;
    var before := writer.sink.failures;
    var i := 0;
    EmptyConcat();
    ghost var flushed, done;
    assert parts[..0] == [];
    while i < |parts|
      invariant 0 <= i <= |parts| && writer.Valid() && writer.buffer.ptr == old(writer.buffer.ptr)
      invariant writer.sink.failures >= before
      invariant writer.sink.failures == before ==> writer.Written() == old(writer.Written()) + Concat(parts[..i])
    {
      var r;
      r, flushed, done := writer.Write(parts[i]);
      if r < 0 {
        return false;
      }
      ConcatLast(parts[..i], parts[i]);
      assert parts[..i] + [parts[i]] == parts[..i + 1];
      i := i + 1;
    }
    assert parts[..i] == parts;
    var r;
    r, done := writer.Flush();
    return writer.sink.failures == before;
  }

  lemma EmptyConcat()
    ensures Concat([]) == []
  {
  }
}
