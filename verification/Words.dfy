/**
  Machine words as natural numbers: OR and right shift, the two bit-smearing
  round-up functions, and the negative-offset addressing of the hash table.
 */
module Words {

  type Byte = b: int | 0 <= b < 256

  const WORD32: nat := 0x1_0000_0000
  const WORD64: nat := 0x1_0000_0000_0000_0000
  const HALF64: nat := 0x8000_0000_0000_0000
  const INIT_CAP: nat := 8
  const MAX_CAP: nat := 0x8000_0000

  function Pow2(k: nat): (p: nat)
    ensures p >= 1
  {
    if k == 0 then 1 else 2 * Pow2(k - 1)
  }

  function Bit(x: nat, j: nat): (b: nat)
    ensures b < 2
    decreases j
  {
    if j == 0 then x % 2 else Bit(x / 2, j - 1)
  }

  function Or(a: nat, b: nat): nat {
    if a == 0 && b == 0 then 0
    else 2 * Or(a / 2, b / 2) + (if a % 2 == 1 || b % 2 == 1 then 1 else 0)
  }

  function Shr(x: nat, s: nat): nat
    decreases s
  {
    if s == 0 then x else Shr(x / 2, s - 1)
  }

  // ---------- arithmetic meaning of the word operations ----------

  lemma {:induction false} ShrDivides(x: nat, s: nat)
    ensures Pow2(s) * Shr(x, s) <= x < Pow2(s) * Shr(x, s) + Pow2(s)
    decreases s
  {
    if s > 0 {
      ShrDivides(x / 2, s - 1);
      DoubleProduct(Pow2(s - 1), Shr(x / 2, s - 1));
    }
  }

  lemma DoubleProduct(p: nat, q: nat)
    ensures (2 * p) * q == 2 * (p * q)
  {
  }

  lemma DivUnique(x: nat, p: nat, q: nat, r: nat)
    requires p > 0 && x == p * q + r && r < p
    ensures x / p == q && x % p == r
  {
    var d, m := x / p, x % p;
    assert x == p * d + m;
    if d > q {
      MulMonotone(p, q + 1, d);
    } else if d < q {
      MulMonotone(p, d + 1, q);
    }
  }

  lemma MulMonotone(p: nat, a: nat, b: nat)
    requires a <= b
    ensures p * a <= p * b
  {
    assert p * b == p * a + p * (b - a);
  }

  lemma {:induction false} BitOr(a: nat, b: nat, j: nat)
    ensures Bit(Or(a, b), j) == if Bit(a, j) == 1 || Bit(b, j) == 1 then 1 else 0
    decreases j
  {
    if j == 0 {
    } else if a == 0 && b == 0 {
      BitOfSmall(0, 0, j);
    } else {
      assert Or(a, b) / 2 == Or(a / 2, b / 2);
      BitOr(a / 2, b / 2, j - 1);
    }
  }

  lemma {:induction false} BitShr(x: nat, s: nat, j: nat)
    ensures Bit(Shr(x, s), j) == Bit(x, s + j)
    decreases s
  {
    if s > 0 {
      BitShr(x / 2, s - 1, j);
    }
  }

  lemma {:induction false} BitOfSmall(x: nat, n: nat, j: nat)
    requires x < Pow2(n) && n <= j
    ensures Bit(x, j) == 0
    decreases j
  {
    if j > 0 {
      BitOfSmall(x / 2, if n == 0 then 0 else n - 1, j - 1);
    }
  }

  lemma {:induction false} OrBound(a: nat, b: nat, n: nat)
    requires a < Pow2(n) && b < Pow2(n)
    ensures Or(a, b) < Pow2(n)
    decreases n
  {
    if n > 0 {
      OrBound(a / 2, b / 2, n - 1);
    }
  }

  lemma {:induction false} ShrBound(x: nat, s: nat)
    ensures Shr(x, s) <= x
    decreases s
  {
    if s > 0 {
      ShrBound(x / 2, s - 1);
    }
  }

  lemma {:induction false} AllOnes(x: nat, n: nat)
    requires x < Pow2(n) && forall j :: 0 <= j < n ==> Bit(x, j) == 1
    ensures x == Pow2(n) - 1
    decreases n
  {
    if n > 0 {
      assert Bit(x, 0) == 1;
      forall j | 0 <= j < n - 1 ensures Bit(x / 2, j) == 1 {
        assert Bit(x, j + 1) == 1;
      }
      AllOnes(x / 2, n - 1);
    }
  }

  lemma {:induction false} Pow2Monotone(a: nat, b: nat)
    requires a <= b
    ensures Pow2(a) <= Pow2(b)
    decreases b
  {
    if a < b {
      Pow2Monotone(a, b - 1);
    }
  }

  // ---------- bit smearing ----------

  // The highest `s` of the `n` low bits of x are set, and nothing above them.
  ghost predicate TopSet(x: nat, n: nat, s: nat) {
    x < Pow2(n) && forall j :: 0 <= j < n && n <= j + s ==> Bit(x, j) == 1
  }

  function Fold(x: nat, s: nat): nat {
    Or(x, Shr(x, s))
  }

  lemma FoldDoubles(x: nat, n: nat, s: nat)
    requires TopSet(x, n, s)
    ensures TopSet(Fold(x, s), n, 2 * s)
  {
    ShrBound(x, s);
    OrBound(x, Shr(x, s), n);
    forall j | 0 <= j < n && n <= j + 2 * s ensures Bit(Fold(x, s), j) == 1 {
      BitOr(x, Shr(x, s), j);
      BitShr(x, s, j);
      if j + s < n {
        assert Bit(x, s + j) == 1;
      }
    }
  }

  lemma {:induction false} TopBit(x: nat) returns (n: nat)
    requires x > 0
    ensures n > 0 && TopSet(x, n, 1) && Pow2(n - 1) <= x < Pow2(n)
  {
    if x == 1 {
      n := 1;
      assert Pow2(1) == 2 && Pow2(0) == 1;
    } else {
      var m := TopBit(x / 2);
      n := m + 1;
      assert Bit(x, n - 1) == Bit(x / 2, m - 1);
    }
  }

  lemma {:induction false} Pow2Reflects(a: nat, b: nat)
    requires Pow2(a) < Pow2(b)
    ensures a < b
  {
    if b <= a {
      Pow2Monotone(b, a);
    }
  }

  ghost predicate IsPow2(p: nat) {
    exists k :: p == Pow2(k)
  }

  // `p` is the least power of two that is at least `x`.
  ghost predicate LeastPow2(x: nat, p: nat) {
    IsPow2(p) && x <= p && forall q :: IsPow2(q) && x <= q ==> p <= q
  }

  lemma SmearedIsLeast(x: nat, n: nat)
    requires x > 1 && n > 0 && Pow2(n - 1) <= x - 1 < Pow2(n)
    ensures LeastPow2(x, Pow2(n))
  {
    forall q | IsPow2(q) && x <= q ensures Pow2(n) <= q {
      var m :| q == Pow2(m);
      Pow2Reflects(n - 1, m);
      Pow2Monotone(n, m);
    }
  }

  lemma FewBits(n: nat, w: nat, x: nat)
    requires n > 0 && Pow2(n - 1) <= x < Pow2(w)
    ensures n <= w
  {
    Pow2Reflects(n - 1, w);
  }

  lemma Pow2Words()
    ensures Pow2(3) == INIT_CAP && Pow2(31) == MAX_CAP && Pow2(32) == WORD32
    ensures Pow2(63) == HALF64 && Pow2(64) == WORD64
  {
    assert Pow2(8) == 256;
    assert Pow2(16) == 65536;
    assert Pow2(24) == 0x100_0000;
    assert Pow2(31) == MAX_CAP;
    assert Pow2(40) == 0x100_0000_0000;
    assert Pow2(48) == 0x1_0000_0000_0000;
    assert Pow2(56) == 0x100_0000_0000_0000;
    assert Pow2(63) == HALF64;
  }

  // x |= x >> s
  method SmearBy(x: nat, s: nat, ghost n: nat) returns (y: nat)
    requires TopSet(x, n, s)
    ensures TopSet(y, n, 2 * s)
  {
    FoldDoubles(x, n, s);
    y := Fold(x, s);
  }

  lemma RoundUp(x: nat, n: nat, w: nat)
    requires x > 1 && 0 < n <= w && Pow2(n - 1) <= x - 1 < Pow2(n)
    ensures LeastPow2(x, Pow2(n))
    ensures if n == w then x > Pow2(w - 1) else x <= Pow2(n) <= Pow2(w - 1)
  {
    SmearedIsLeast(x, n);
    if n < w {
      Pow2Monotone(n, w - 1);
    }
  }

  // The shared straight line of shifts; the sixth one exists on 64-bit words only.
  method Smear(x: nat, wide: bool, ghost w: nat) returns (y: nat, ghost n: nat)
    requires x < Pow2(w) && w == (if wide then 64 else 32)
    ensures n <= w && y == Pow2(n) - 1
    ensures if n == 0 then x == 0 else Pow2(n - 1) <= x < Pow2(n)
  {
    n := 0;
    if x > 0 {
      n := TopBit(x);
      FewBits(n, w, x);
    }
    y := SmearBy(x, 1, n);
    y := SmearBy(y, 2, n);
    y := SmearBy(y, 4, n);
    y := SmearBy(y, 8, n);
    y := SmearBy(y, 16, n);
    if wide {
      y := SmearBy(y, 32, n);
    }
    AllOnes(y, n);
  }

  // From a word x to the power of two above it, by smearing and adding one.
  method SmearUp(x: nat, wide: bool, ghost w: nat) returns (r: nat)
    requires x < Pow2(w) && w == (if wide then 64 else 32)
    ensures x < Pow2(w - 1) ==> LeastPow2(x + 1, r) && r <= Pow2(w - 1)
    ensures x >= Pow2(w - 1) ==> r == Pow2(w)
  {
    ghost var n;
    r, n := Smear(x, wide, w);
    if n == 0 {
      assert Pow2(0) == 1 && IsPow2(1);
      Pow2Monotone(0, w - 1);
    } else {
      RoundUp(x + 1, n, w);
    }
    r := r + 1;
  }

  // hash_recap: 32-bit round-up with a floor of eight; zero when the answer needs 33 bits.
  method HashRecap(requested: nat) returns (cap: nat)
    requires requested < WORD32
    ensures requested <= INIT_CAP ==> cap == INIT_CAP
    ensures INIT_CAP < requested <= MAX_CAP ==> LeastPow2(requested, cap) && cap <= MAX_CAP
    ensures requested > MAX_CAP ==> cap == 0
  {
    if requested <= INIT_CAP {
      return INIT_CAP;
    }
    assert Pow2(31) == MAX_CAP && Pow2(32) == WORD32 by { Pow2Words(); }
    cap := SmearUp(requested - 1, false, 32);
    cap := if cap < WORD32 then cap else cap - WORD32;
  }

  // ef_resize: 64-bit round-up of max(size, min); zero when the answer is not a 64-bit power of two.
  method Resize(size: nat, min: nat) returns (r: nat)
    requires size < WORD64 && min < WORD64
    ensures var s := if size < min then min else size;
            if 0 < s <= HALF64 then LeastPow2(s, r) else r == 0
  {
    assert Pow2(63) == HALF64 && Pow2(64) == WORD64 by { Pow2Words(); }
    var s := if size < min then min else size;
    var x := if s == 0 then WORD64 - 1 else s - 1;
    r := SmearUp(x, true, 64);
    r := if r < WORD64 then r else r - WORD64;
  }

  // ---------- hash table addressing ----------

  function ToInt32(v: nat): int {
    if v < MAX_CAP then v else v - WORD32
  }

  // HASH_SIZEMASK and HASH_OFFSET; `Or` stays inside 32 bits.
  function SizeMask(cap: nat): (m: nat)
    requires 0 < cap <= MAX_CAP
  {
    WORD32 - cap
  }

  lemma {:induction false} ModHalves(h: nat, p: nat)
    requires p > 0
    ensures h % (2 * p) == 2 * ((h / 2) % p) + h % 2
  {
    var q, r := (h / 2) / p, (h / 2) % p;
    assert h / 2 == p * q + r;
    assert h == 2 * (p * q + r) + h % 2;
    assert 2 * (p * q) == (2 * p) * q;
    DivUnique(h, 2 * p, q, 2 * r + h % 2);
  }

  lemma OrStep(a: nat, b: nat, a': nat, b': nat)
    requires a / 2 == a' && b / 2 == b'
    ensures Or(a, b) == 2 * Or(a', b') + (if a % 2 == 1 || b % 2 == 1 then 1 else 0)
  {
  }

  lemma {:induction false} OrOnes(h: nat, w: nat)
    requires h < Pow2(w)
    ensures Or(h, Pow2(w) - 1) == Pow2(w) - 1
    decreases w
  {
    if w > 0 {
      var p := Pow2(w - 1);
      OrOnes(h / 2, w - 1);
      OrStep(h, 2 * p - 1, h / 2, p - 1);
    }
  }

  lemma OrMaskStep(h: nat, half: nat, p: nat, q: nat, r: nat)
    requires half == h / 2 && q <= p && Or(half, p - q) == p - q + r
    ensures Or(h, 2 * p - 2 * q) == 2 * p - 2 * q + 2 * r + h % 2
  {
    OrStep(h, 2 * p - 2 * q, half, p - q);
  }

  // The k low bits of a word.
  function Low(h: nat, k: nat): nat
    decreases k
  {
    if k == 0 then 0 else 2 * Low(h / 2, k - 1) + h % 2
  }

  lemma {:induction false} LowIsRemainder(h: nat, k: nat)
    ensures Low(h, k) == h % Pow2(k)
    decreases k
  {
    if k > 0 {
      LowIsRemainder(h / 2, k - 1);
      ModHalves(h, Pow2(k - 1));
    }
  }

  lemma {:induction false} LowBound(h: nat, k: nat)
    ensures Low(h, k) < Pow2(k)
    decreases k
  {
    if k > 0 {
      LowBound(h / 2, k - 1);
    }
  }

  lemma {:induction false} LowOfLow(h: nat, k: nat, w: nat)
    requires k <= w
    ensures Low(Low(h, w), k) == Low(h, k)
    decreases k
  {
    if k > 0 {
      assert Low(h, w) / 2 == Low(h / 2, w - 1) && Low(h, w) % 2 == h % 2;
      LowOfLow(h / 2, k - 1, w - 1);
    }
  }

  lemma {:induction false} OrMask(h: nat, k: nat, w: nat)
    requires k <= w && h < Pow2(w)
    ensures Pow2(k) <= Pow2(w)
    ensures Or(h, Pow2(w) - Pow2(k)) == Pow2(w) - Pow2(k) + Low(h, k)
    decreases w
  {
    Pow2Monotone(k, w);
    if k > 0 {
      OrMask(h / 2, k - 1, w - 1);
      OrMaskStep(h, h / 2, Pow2(w - 1), Pow2(k - 1), Low(h / 2, k - 1));
    } else {
      OrOnes(h, w);
    }
  }

  function HashOffset(h: nat, sizemask: nat): int {
    ToInt32(Or(h % WORD32, sizemask))
  }

  lemma OffsetOfMasked(h: nat, p: nat, r: nat)
    requires 0 < p <= MAX_CAP && r < p && Or(h % WORD32, WORD32 - p) == WORD32 - p + r
    ensures HashOffset(h, SizeMask(p)) == r - p
  {
    hide Or;
  }

  lemma OffsetInSlots(h: nat, k: nat)
    requires k <= 31
    ensures 0 < Pow2(k) <= MAX_CAP
    ensures HashOffset(h, SizeMask(Pow2(k))) == h % Pow2(k) - Pow2(k)
  {
    assert Pow2(31) == MAX_CAP && Pow2(32) == WORD32 by { Pow2Words(); }
    Pow2Monotone(k, 31);
    hide *;
    LowIsRemainder(h, 32);
    LowIsRemainder(h, k);
    LowOfLow(h, k, 32);
    LowBound(h, k);
    LowBound(h, 32);
    OrMask(Low(h, 32), k, 32);
    OffsetOfMasked(h, Pow2(k), Low(h, k));
  }

  // ---------- the string hash ----------

  type Bytes = seq<Byte>

  // A plain char is signed on this platform.
  function SignedChar(b: Byte): int {
    if b < 128 then b else b - 256
  }

  function HashStep(h: nat, b: Byte): (r: nat)
    ensures r < WORD64
  {
    (33 * h + SignedChar(b) + WORD64) % WORD64
  }

  function HashFold(h: nat, s: Bytes): nat
    decreases |s|
  {
    if s == [] then h else HashFold(HashStep(h, s[0]), s[1..])
  }

  function Hash(key: Bytes): nat {
    HALF64 + HashFold(5381, key) % (HALF64)
  }

  // hash = ((hash << 5) + hash) + *str, on 64-bit words.
  method Mix(h: nat, b: Byte) returns (r: nat)
    requires h < WORD64
    ensures r == HashStep(h, b)
  {
    r := ((h * 32) % WORD64 + h + SignedChar(b) + WORD64) % WORD64;
  }

  lemma {:induction false} FoldSplits(h: nat, s: Bytes, t: Bytes)
    ensures HashFold(h, s + t) == HashFold(HashFold(h, s), t)
    decreases |s|
  {
    if s == [] {
      assert s + t == t;
    } else {
      assert (s + t)[1..] == s[1..] + t;
      FoldSplits(HashStep(h, s[0]), s[1..], t);
    }
  }

  lemma FoldEmpty(h: nat)
    ensures HashFold(h, []) == h
  {
  }

  lemma FoldPrefix(h: nat, s: Bytes, i: nat)
    requires i < |s|
    ensures HashFold(h, s[..i + 1]) == HashStep(HashFold(h, s[..i]), s[i])
  {
    assert s[..i + 1] == s[..i] + [s[i]];
    FoldSplits(h, s[..i], [s[i]]);
    assert [s[i]][1..] == [];
    assert HashFold(HashStep(HashFold(h, s[..i]), s[i]), []) == HashStep(HashFold(h, s[..i]), s[i]);
  }

  lemma {:induction false} FoldIsWord(h: nat, s: Bytes)
    requires h < WORD64
    ensures HashFold(h, s) < WORD64
    decreases |s|
  {
    if s != [] {
      FoldIsWord(HashStep(h, s[0]), s[1..]);
    }
  }

  // The polynomial in 33 that a key spells out, its characters signed, starting from 5381.
  function Spelled(key: Bytes): int
    decreases |key|
  {
    if key == [] then 5381
    else
      var n := |key| - 1;
      var c: int := key[n];
      33 * Spelled(key[..n]) + (if c >= 128 then c - 256 else c)
  }

  lemma StepCongruent(h: nat, v: int, k: int, b: Byte) returns (k': int)
    requires h == v + k * WORD64
    ensures var c: int := b; HashStep(h, b) == 33 * v + (if c >= 128 then c - 256 else c) + k' * WORD64
  {
    var t := 33 * h + SignedChar(b) + WORD64;
    var q := t / WORD64;
    assert t == q * WORD64 + t % WORD64;
    k' := 33 * k + 1 - q;
  }

  lemma {:induction false} FoldCongruent(key: Bytes) returns (k: int)
    ensures HashFold(5381, key) == Spelled(key) + k * WORD64
    decreases |key|
  {
    hide HashFold, HashStep;
    if key == [] {
      FoldEmpty(5381);
      k := 0;
    } else {
      var n := |key| - 1;
      var j := FoldCongruent(key[..n]);
      k := StepCongruent(HashFold(5381, key[..n]), Spelled(key[..n]), j, key[n]);
      FoldPrefix(5381, key, n);
      assert key[..n + 1] == key;
    }
  }

  // The hash of a key is its polynomial, up to multiples of 2^63, in the upper half of the
  // 64-bit words.
  lemma HashIsPolynomial(key: Bytes) returns (k: int)
    ensures Hash(key) == Spelled(key) + k * 0x8000_0000_0000_0000
    ensures 0x8000_0000_0000_0000 <= Hash(key) < 0x1_0000_0000_0000_0000
  {
    hide HashFold, Spelled;
    var j := FoldCongruent(key);
    var f := HashFold(5381, key);
    var q := f / HALF64;
    assert f == q * HALF64 + f % HALF64;
    k := 1 - q + 2 * j;
  }

  // One statement of the unrolled loop: mix str[i] and advance.
  method Advance(h: nat, str: Bytes, i: nat) returns (r: nat)
    requires i < |str| && h == HashFold(5381, str[..i])
    ensures r == HashFold(5381, str[..i + 1])
  {
    FoldIsWord(5381, str[..i]);
    FoldPrefix(5381, str, i);
    r := Mix(h, str[i]);
  }

  // hash_func: eight characters a turn, then a fall-through switch on the rest.
  method HashFunc(str: Bytes) returns (hash: nat)
    ensures hash == Hash(str)
    ensures HALF64 <= hash < WORD64
  {
    hide HashFold, Or, Low, HashStep, SignedChar;
    hash := 5381;
    var len, i := |str|, 0;
    FoldEmpty(5381);
    assert str[..0] == [];
    while len >= 8
      invariant 0 <= i <= |str| && i + len == |str|
      invariant hash == HashFold(5381, str[..i])
    {
      hash := Advance(hash, str, i);
      hash := Advance(hash, str, i + 1);
      hash := Advance(hash, str, i + 2);
      hash := Advance(hash, str, i + 3);
      hash := Advance(hash, str, i + 4);
      hash := Advance(hash, str, i + 5);
      hash := Advance(hash, str, i + 6);
      hash := Advance(hash, str, i + 7);
      len, i := len - 8, i + 8;
    }
    if len >= 7 { hash := Advance(hash, str, i); i := i + 1; }
    if len >= 6 { hash := Advance(hash, str, i); i := i + 1; }
    if len >= 5 { hash := Advance(hash, str, i); i := i + 1; }
    if len >= 4 { hash := Advance(hash, str, i); i := i + 1; }
    if len >= 3 { hash := Advance(hash, str, i); i := i + 1; }
    if len >= 2 { hash := Advance(hash, str, i); i := i + 1; }
    if len >= 1 { hash := Advance(hash, str, i); i := i + 1; }
    assert str[..i] == str;
    FoldIsWord(5381, str);
    assert Pow2(63) == HALF64 && Pow2(64) == WORD64 by { Pow2Words(); }
    OrMask(hash, 63, 64);
    LowIsRemainder(hash, 63);
    hash := Or(hash, HALF64);
  }
}
