/** The Adler-32 checksum of adler32.c: deferred reduction, division-free remainders, and the
    checksum of a concatenation from those of its parts.

    Accumulators are 32-bit words; every assignment to one shows that it does not overflow.
    The two halves of a checksum are disjoint, so joining them by `|` is addition. */
module Adler32 {

  const BASE: nat := 65521
  const NMAX: nat := 5552
  const WORD: nat := 0x1_0000_0000

  type word = x: int | 0 <= x < WORD

  type octet = x: int | 0 <= x < 256

  // ----- section 2.2 of RFC 1950 -----

  /** The two sums. */
  datatype Sums = Sums(a: nat, b: nat)

  predicate Canonical(s: Sums) {
    s.a < BASE && s.b < BASE
  }

  function Add(s: Sums, x: octet): (r: Sums)
    ensures Canonical(r)
  {
    var a := (s.a + x) % BASE;
    Sums(a, (s.b + a) % BASE)
  }

  function AddAll(s: Sums, xs: seq<octet>): Sums
    decreases |xs|
  {
    if xs == [] then s else AddAll(Add(s, xs[0]), xs[1..])
  }

  function Join(s: Sums): (r: word)
    requires s.a < 65536 && s.b < 65536
  {
    s.b * 65536 + s.a
  }

  function Split(w: word): (r: Sums)
    ensures r.a < 65536 && r.b < 65536
  {
    Sums(w % 65536, (w / 65536) % 65536)
  }

  lemma SplitJoin(s: Sums)
    requires s.a < 65536 && s.b < 65536
    ensures Split(Join(s)) == s
  {
    var w := Join(s);
    assert w == 65536 * (w / 65536) + w % 65536;
    assert w / 65536 == s.b;
  }

  predicate CanonicalWord(w: word) {
    Canonical(Split(w))
  }

  /** The checksum of xs after a checksum w. */
  function Checksum(w: word, xs: seq<octet>): word
    requires CanonicalWord(w)
  {
    AddAllCanonical(Split(w), xs);
    Join(AddAll(Split(w), xs))
  }

  lemma {:induction false} AddAllCanonical(s: Sums, xs: seq<octet>)
    requires Canonical(s)
    ensures Canonical(AddAll(s, xs))
    decreases |xs|
  {
    if xs != [] {
      AddAllCanonical(Add(s, xs[0]), xs[1..]);
    }
  }

  lemma {:induction false} AddAllJoin(s: Sums, xs: seq<octet>, ys: seq<octet>)
    ensures AddAll(s, xs + ys) == AddAll(AddAll(s, xs), ys)
    decreases |xs|
  {
    if xs == [] {
      assert xs + ys == ys;
    } else {
      assert (xs + ys)[1..] == xs[1..] + ys;
      AddAllJoin(Add(s, xs[0]), xs[1..], ys);
    }
  }

  /** Checksumming in parts is checksumming the whole. */
  lemma Chaining(w: word, xs: seq<octet>, ys: seq<octet>)
    requires CanonicalWord(w)
    ensures CanonicalWord(Checksum(w, xs)) && Checksum(Checksum(w, xs), ys) == Checksum(w, xs + ys)
  {
    hide AddAll;
    AddAllCanonical(Split(w), xs);
    SplitJoin(AddAll(Split(w), xs));
    AddAllJoin(Split(w), xs, ys);
  }

  // ----- remainders without division -----

  /** Folds the high half in, 65536 being 15 more than BASE. */
  function Chop(a: word): (r: word)
    ensures r % BASE == a % BASE && r <= 65535 + 15 * (a / 65536)
  {
    var tmp := a / 65536;
    FoldHigh(tmp, a % 65536);
    a % 65536 + (tmp * 16 - tmp)
  }

  lemma FoldHigh(hi: nat, lo: nat)
    ensures (hi * 65536 + lo) % BASE == (lo + 15 * hi) % BASE
  {
    ModPlus(hi, lo + 15 * hi);
  }

  /** 2^32 is 225 more than a multiple of BASE. */
  lemma FoldWord(hi: nat, lo: nat)
    ensures (hi * WORD + lo) % BASE == (lo + 225 * hi) % BASE
  {
    ModPlus(65551 * hi, lo + 225 * hi);
  }

  lemma ModPlus(k: int, x: int)
    ensures (k * BASE + x) % BASE == x % BASE
  {}

  /** MOD28: enough for values below 2^28. */
  function Mod28(noDivide: bool, a: word): (r: nat)
    requires a < 0x1000_0000
    ensures r == a % BASE
  {
    if noDivide then
      var c := Chop(a);
      if c >= BASE then c - BASE else c
    else a % BASE
  }

  function Mod(noDivide: bool, a: word): (r: nat)
    ensures r == a % BASE
  {
    if noDivide then Mod28(noDivide, Chop(a)) else a % BASE
  }

  function Fold16(a: nat): nat {
    var tmp := a / 65536;
    a % 65536 + (tmp * 16 - tmp)
  }

  function Fold32(a: nat): nat {
    var tmp := a / WORD;
    a % WORD + (tmp * 256 - tmp * 32 + tmp)
  }

  lemma Fold16Fits(a: nat, n: nat)
    requires a < n * 65536
    ensures Fold16(a) % BASE == a % BASE && Fold16(a) < 65536 + 15 * n
  {
    FoldHigh(a / 65536, a % 65536);
  }

  lemma Fold32Fits(a: nat)
    requires a < 0x8000_0000_0000_0000
    ensures Fold32(a) % BASE == a % BASE && Fold32(a) < 0x80_0000 * 65536
  {
    FoldWord(a / WORD, a % WORD);
  }

  lemma Reduced(x: nat)
    requires x < 2 * BASE
    ensures x % BASE == if x >= BASE then x - BASE else x
  {
    ModPlus(1, x - BASE);
  }

  /** MOD63, for values that are not negative. */
  function Mod63(noDivide: bool, a: nat): (r: nat)
    requires a < 0x8000_0000_0000_0000
    ensures r == a % BASE
  {
    if noDivide then
      var a1 := Fold32(a);
      var a2 := Fold16(a1);
      var a3 := Fold16(a2);
      Fold32Fits(a);
      Fold16Fits(a1, 0x80_0000);
      Fold16Fits(a2, 0x1000);
      Reduced(a3);
      if a3 >= BASE then a3 - BASE else a3
    else a % BASE
  }

  // ----- how long reduction can wait -----

  /** The largest value the second sum can reach over n bytes. */
  function Cap(n: nat): nat {
    (n + 1) * (BASE - 1) + 255 * (n * (n + 1) / 2)
  }

  lemma CapNext(n: nat)
    ensures Cap(n + 1) == Cap(n) + (BASE - 1) + 255 * (n + 1)
  {
    assert (n + 1) * (n + 2) == n * (n + 1) + 2 * (n + 1);
    assert (n * (n + 1) + 2 * (n + 1)) / 2 == n * (n + 1) / 2 + (n + 1);
  }

  lemma {:induction false} CapGrows(m: nat, n: nat)
    requires m <= n
    ensures Cap(m) <= Cap(n)
    decreases n - m
  {
    if m < n {
      CapNext(m);
      CapGrows(m + 1, n);
    }
  }

  /** NMAX is the largest block length over which no accumulator can overflow. */
  lemma NMaxIsLargest(n: nat)
    ensures Cap(n) < WORD <==> n <= NMAX
  {
    assert Cap(NMAX) < WORD <= Cap(NMAX + 1);
    if n <= NMAX { CapGrows(n, NMAX); } else { CapGrows(NMAX + 1, n); }
  }

  /** Sums without any reduction. */
  function Raw(s: Sums, xs: seq<octet>): Sums
    decreases |xs|
  {
    if xs == [] then s else Raw(Sums(s.a + xs[0], s.b + s.a + xs[0]), xs[1..])
  }

  lemma {:induction false} RawFull(s: Sums, n: nat)
    ensures var r := Raw(s, seq(n, i => 255)); r.a == s.a + 255 * n && r.b == s.b + n * s.a + 255 * (n * (n + 1) / 2)
    decreases n
  {
    var xs: seq<octet> := seq(n, i => 255);
    if n > 0 {
      assert xs[1..] == seq(n - 1, i => 255);
      RawFull(Sums(s.a + 255, s.b + s.a + 255), n - 1);
      FullStep(s.a, n);
    }
  }

  lemma FullStep(a: nat, n: nat)
    requires n > 0
    ensures (a + 255) + (n - 1) * (a + 255) + 255 * ((n - 1) * n / 2) == n * a + 255 * (n * (n + 1) / 2)
  {
    assert n * (n + 1) == (n - 1) * n + 2 * n;
    assert (n - 1) * (a + 255) == n * (a + 255) - (a + 255);
    assert n * (a + 255) == n * a + 255 * n;
  }

  /** The cap is reached: by bytes 255 after the largest canonical sums. */
  lemma CapIsReached(n: nat)
    ensures Raw(Sums(BASE - 1, BASE - 1), seq(n, i => 255)).b == Cap(n)
  {
    RawFull(Sums(BASE - 1, BASE - 1), n);
  }

  // ----- the checksum -----

  /** The accumulators hold the sums of s and the bytes, not reduced over the last n. */
  ghost predicate Holds(adler: int, sum2: int, s: Sums, xs: seq<octet>, n: nat) {
    0 <= adler <= BASE - 1 + 255 * n && 0 <= sum2 <= Cap(n)
    && Sums(adler % BASE, sum2 % BASE) == AddAll(s, xs)
  }

  lemma {:induction false} AddAllLast(s: Sums, xs: seq<octet>, x: octet)
    ensures AddAll(s, xs + [x]) == Add(AddAll(s, xs), x)
  {
    AddAllJoin(s, xs, [x]);
    assert [x][1..] == [];
  }

  lemma ModAdd(x: int, y: int)
    ensures (x % BASE + y) % BASE == (x + y) % BASE
  {
    ModPlus(x / BASE, x % BASE + y);
  }

  /** One byte more, before the next reduction. */
  lemma HoldsNext(adler: int, sum2: int, s: Sums, buf: seq<octet>, i: nat, n: nat)
    requires i < |buf| && n < NMAX && Holds(adler, sum2, s, buf[..i], n)
    ensures Holds(adler + buf[i], sum2 + adler + buf[i], s, buf[..i + 1], n + 1)
    ensures adler + buf[i] < WORD && sum2 + adler + buf[i] < WORD
  {
    hide AddAll;
    assert buf[..i + 1] == buf[..i] + [buf[i]];
    AddAllLast(s, buf[..i], buf[i]);
    ModAdd(adler, buf[i]);
    ModAdd(sum2, (adler + buf[i]) % BASE);
    ModAdd(adler + buf[i], sum2);
    CapNext(n);
    NMaxIsLargest(n + 1);
  }

  lemma HoldsReduced(adler: int, sum2: int, s: Sums, xs: seq<octet>, n: nat)
    requires Holds(adler, sum2, s, xs, n)
    ensures Holds(adler % BASE, sum2 % BASE, s, xs, 0)
  {}

  lemma Held(adler: int, sum2: int, s: Sums, buf: seq<octet>)
    requires 0 <= adler < BASE && 0 <= sum2 < BASE && Sums(adler % BASE, sum2 % BASE) == AddAll(s, buf)
    ensures AddAll(s, buf) == Sums(adler, sum2)
  {}

  /** DO16: sixteen sums. */
  method Do16(buf: seq<octet>, at: nat, adler0: word, sum0: word, ghost s: Sums, ghost n: nat)
    returns (adler: word, sum2: word)
    requires at + 16 <= |buf| && n + 16 <= NMAX && Holds(adler0, sum0, s, buf[..at], n)
    ensures Holds(adler, sum2, s, buf[..at + 16], n + 16)
  {
    hide Holds;
    adler, sum2 := adler0, sum0;
    for i := 0 to 16
      invariant Holds(adler, sum2, s, buf[..at + i], n + i)
    {
      HoldsNext(adler, sum2, s, buf, at + i, n + i);
      adler := adler + buf[at + i];
      sum2 := sum2 + adler;
    }
  }

  /** A byte at a time. */
  method DoBytes(buf: seq<octet>, at: nat, adler0: word, sum0: word, ghost s: Sums, ghost n: nat)
    returns (adler: word, sum2: word)
    requires at <= |buf| && n + (|buf| - at) <= NMAX && Holds(adler0, sum0, s, buf[..at], n)
    ensures Holds(adler, sum2, s, buf, n + (|buf| - at))
  {
    hide Holds;
    adler, sum2 := adler0, sum0;
    for i := at to |buf|
      invariant Holds(adler, sum2, s, buf[..i], n + (i - at))
    {
      HoldsNext(adler, sum2, s, buf, i, n + (i - at));
      adler := adler + buf[i];
      sum2 := sum2 + adler;
    }
    assert buf[..|buf|] == buf;
  }

  /** A single byte. */
  method SingleByte(buf: seq<octet>, adler0: word, sum0: word, ghost s: Sums) returns (adler: word, sum2: word)
    requires |buf| == 1 && Canonical(s) && s == Sums(adler0, sum0)
    ensures adler < BASE && sum2 < BASE && AddAll(s, buf) == Sums(adler, sum2)
  {
    hide AddAll;
    adler := adler0 + buf[0];
    if adler >= BASE {
      adler := adler - BASE;
    }
    sum2 := sum0 + adler;
    if sum2 >= BASE {
      sum2 := sum2 - BASE;
    }
    OneByte(s, buf, adler, sum2);
  }

  /** Less than sixteen bytes. */
  method FewBytes(noDivide: bool, buf: seq<octet>, adler0: word, sum0: word, ghost s: Sums)
    returns (adler: word, sum2: word)
    requires |buf| < 16 && Holds(adler0, sum0, s, [], 0)
    ensures adler < BASE && sum2 < BASE && AddAll(s, buf) == Sums(adler, sum2)
  {
    hide AddAll, Holds;
    assert buf[..0] == [];
    adler, sum2 := DoBytes(buf, 0, adler0, sum0, s, 0);
    HoldsWithin(adler, sum2, s, buf, |buf|);
    ghost var all := adler;
    if adler >= BASE {
      adler := adler - BASE;
    }
    LessBase(all);
    sum2 := Mod28(noDivide, sum2);
    Held(adler, sum2, s, buf);
  }

  lemma LessBase(x: nat)
    requires x < 2 * BASE
    ensures x % BASE == if x >= BASE then x - BASE else x
  {
    ModPlus(1, x - BASE);
  }

  /** NMAX bytes, and a remainder. */
  method OneBlock(noDivide: bool, buf: seq<octet>, at0: nat, adler0: word, sum0: word, ghost s: Sums)
    returns (at: nat, adler: word, sum2: word)
    requires at0 + NMAX <= |buf| && Holds(adler0, sum0, s, buf[..at0], 0)
    ensures at == at0 + NMAX && Holds(adler, sum2, s, buf[..at], 0)
  {
    hide Holds;
    at, adler, sum2 := at0, adler0, sum0;
    var n := NMAX / 16;
    while n > 0
      invariant 0 <= n <= NMAX / 16 && at == at0 + NMAX - 16 * n
      invariant Holds(adler, sum2, s, buf[..at], NMAX - 16 * n)
    {
      adler, sum2 := Do16(buf, at, adler, sum2, s, NMAX - 16 * n);
      at, n := at + 16, n - 1;
    }
    HoldsReduced(adler, sum2, s, buf[..at], NMAX);
    adler := Mod(noDivide, adler);
    sum2 := Mod(noDivide, sum2);
  }

  /** What is left after the blocks, and a remainder. */
  method LastBytes(noDivide: bool, buf: seq<octet>, at0: nat, adler0: word, sum0: word, ghost s: Sums)
    returns (adler: word, sum2: word)
    requires at0 <= |buf| < at0 + NMAX && Holds(adler0, sum0, s, buf[..at0], 0)
    ensures Holds(adler, sum2, s, buf, 0)
  {
    hide Holds;
    var at := at0;
    adler, sum2 := adler0, sum0;
    while |buf| - at >= 16
      invariant at0 <= at <= |buf| && Holds(adler, sum2, s, buf[..at], at - at0)
    {
      adler, sum2 := Do16(buf, at, adler, sum2, s, at - at0);
      at := at + 16;
    }
    adler, sum2 := DoBytes(buf, at, adler, sum2, s, at - at0);
    HoldsReduced(adler, sum2, s, buf, |buf| - at0);
    adler := Mod(noDivide, adler);
    sum2 := Mod(noDivide, sum2);
  }

  /** A buffer, or Z_NULL with a length that was passed along with it. */
  datatype Buffer = Null(len: nat) | Bytes(xs: seq<octet>)

  /** adler32(), in either configuration of the remainders.  A null buffer of length 1 is
      read. */
  method Update(noDivide: bool, start: word, buffer: Buffer) returns (r: word)
    requires CanonicalWord(start) && (buffer.Null? ==> buffer.len != 1)
    ensures r == if buffer.Null? then 1 else Checksum(start, buffer.xs)
  {
    hide AddAll, Holds, Checksum, Join;
    if buffer.Null? {
      return 1;
    }
    var buf, len := buffer.xs, |buffer.xs|;
    var adler: word, sum2: word := start % 65536, (start / 65536) % 65536;
    ghost var s := Split(start);
    StartHolds(s);
    if len == 1 {
      adler, sum2 := SingleByte(buf, adler, sum2, s);
    } else if len < 16 {
      adler, sum2 := FewBytes(noDivide, buf, adler, sum2, s);
    } else {
      var at := 0;
      assert buf[..0] == [];
      while len - at >= NMAX
        invariant 0 <= at <= len && Holds(adler, sum2, s, buf[..at], 0)
      {
        at, adler, sum2 := OneBlock(noDivide, buf, at, adler, sum2, s);
      }
      if at < len {
        adler, sum2 := LastBytes(noDivide, buf, at, adler, sum2, s);
      } else {
        assert buf[..at] == buf;
      }
      HoldsWithin(adler, sum2, s, buf, 0);
      Held(adler, sum2, s, buf);
    }
    JoinedIs(start, buf, adler, sum2);
    r := adler + sum2 * 65536;
  }

  lemma JoinedIs(start: word, xs: seq<octet>, adler: int, sum2: int)
    requires CanonicalWord(start) && 0 <= adler < BASE && 0 <= sum2 < BASE
             && AddAll(Split(start), xs) == Sums(adler, sum2)
    ensures Checksum(start, xs) == adler + sum2 * 65536
  {
    hide AddAll;
  }

  lemma StartHolds(s: Sums)
    requires Canonical(s)
    ensures Holds(s.a, s.b, s, [], 0)
  {}

  lemma HoldsWithin(adler: int, sum2: int, s: Sums, xs: seq<octet>, n: nat)
    requires Holds(adler, sum2, s, xs, n) && n < 16
    ensures 0 <= adler <= BASE - 1 + 255 * n && 0 <= sum2 < 0x1000_0000 && (n == 0 ==> sum2 < BASE)
    ensures Sums(adler % BASE, sum2 % BASE) == AddAll(s, xs)
  {
    hide AddAll;
    CapGrows(n, 15);
  }

  lemma OneByte(s: Sums, buf: seq<octet>, adler: int, sum2: int)
    requires Canonical(s) && |buf| == 1
    requires adler == if s.a + buf[0] >= BASE then s.a + buf[0] - BASE else s.a + buf[0]
    requires sum2 == if s.b + adler >= BASE then s.b + adler - BASE else s.b + adler
    ensures AddAll(s, buf) == Sums(adler, sum2)
  {
    assert buf[1..] == [];
    assert AddAll(s, buf) == Add(s, buf[0]);
    Reduced(s.a + buf[0]);
    Reduced(s.b + adler);
  }

  // ----- the checksum of a concatenation -----

  function Total(xs: seq<octet>): nat {
    if xs == [] then 0 else xs[0] + Total(xs[1..])
  }

  /** The sum of the sums of all beginnings. */
  function Weighted(xs: seq<octet>): nat {
    if xs == [] then 0 else |xs| * xs[0] + Weighted(xs[1..])
  }

  lemma ModMul(x: int, k: nat, y: int)
    ensures (x + k * (y % BASE)) % BASE == (x + k * y) % BASE
  {
    assert k * y == (k * (y / BASE)) * BASE + k * (y % BASE) by {
      assert y == (y / BASE) * BASE + y % BASE;
    }
    ModPlus(k * (y / BASE), x + k * (y % BASE));
  }

  /** The sums in closed form: each byte counts once for every byte from it on. */
  lemma {:induction false} ClosedForm(s: Sums, xs: seq<octet>)
    requires Canonical(s)
    ensures AddAll(s, xs) == Sums((s.a + Total(xs)) % BASE, (s.b + |xs| * s.a + Weighted(xs)) % BASE)
    decreases |xs|
  {
    if xs != [] {
      var n, x, rest := |xs|, xs[0], xs[1..];
      var t := Add(s, x);
      ClosedForm(t, rest);
      ModAdd(s.a + x, Total(rest));
      ClosedStep(s.a, s.b, x, n, Weighted(rest));
    }
  }

  lemma ClosedStep(a: nat, b: nat, x: nat, n: nat, w: nat)
    requires n > 0
    ensures ((b + (a + x) % BASE) % BASE + (n - 1) * ((a + x) % BASE) + w) % BASE == (b + n * a + (n * x + w)) % BASE
  {
    var y := (a + x) % BASE;
    ModAdd(b + y, (n - 1) * y + w);
    assert b + y + ((n - 1) * y + w) == (b + w) + n * y;
    ModMul(b + w, n, a + x);
    assert n * (a + x) == n * a + n * x;
  }

  /** x | (y << 16), of an x that may have a bit more. */
  function Or(x: nat, y: nat): nat
    requires x < 2 * 65536
  {
    if x < 65536 then x + y * 65536 else x - 65536 + (if y % 2 == 1 then y else y + 1) * 65536
  }

  /** The halves are small enough for the subtractions of BASE to reduce the sums. */
  predicate Reducible(s: Sums, t: Sums, n: nat) {
    s.a + t.a <= 2 * BASE && (n * s.a) % BASE + s.b + t.b < 3 * BASE + n % BASE
  }

  /** adler32_combine_() of any two words: lengths are 63-bit numbers, negative ones are
      refused.  The formula is computed exactly for halves that are small enough, as those of
      checksums are. */
  method Combine(noDivide: bool, adler1: word, adler2: word, len2: int) returns (r: nat)
    requires len2 < 0x8000_0000_0000_0000
    ensures len2 < 0 ==> r == 0xffff_ffff
    ensures len2 >= 0 ==>
              (r == Join(Combined(Split(adler1), Split(adler2), len2)) <==>
               Reducible(Split(adler1), Split(adler2), len2))
    ensures CanonicalWord(adler1) && CanonicalWord(adler2) && len2 >= 0 ==>
              Reducible(Split(adler1), Split(adler2), len2)
  {
    hide Combined, Or;
    if len2 < 0 {
      return 0xffff_ffff;
    }
    ghost var s, t := Split(adler1), Split(adler2);
    var rem := Mod63(noDivide, len2);
    var sum1: word := adler1 % 65536;
    var sum2: word := Product(noDivide, rem, sum1, len2);
    sum1 := sum1 + adler2 % 65536 + BASE - 1;
    sum2 := sum2 + (adler1 / 65536) % 65536 + (adler2 / 65536) % 65536 + BASE - rem;
    ghost var x, y := sum1, sum2;
    CombinedParts(s, t, len2, x, y);
    if sum1 >= BASE {
      sum1 := sum1 - BASE;
    }
    if sum1 >= BASE {
      sum1 := sum1 - BASE;
    }
    if sum2 >= 2 * BASE {
      sum2 := sum2 - 2 * BASE;
    }
    if sum2 >= BASE {
      sum2 := sum2 - BASE;
    }
    r := Or(sum1, sum2);
    FourReduced(x);
    FiveReduced(y);
    OrIsJoin(sum1, sum2, Combined(s, t, len2));
  }

  /** The largest halves cannot be reduced: the length is 0 here. */
  lemma TooLargeToReduce()
    ensures !Reducible(Split(0xffff), Split(0xffff), 0)
  {
    assert Split(0xffff) == Sums(0xffff, 0);
  }

  /** Sums that are still too large show in the result. */
  lemma OrIsJoin(x: nat, y: nat, c: Sums)
    requires Canonical(c) && (x == c.a || x == c.a + BASE) && (y == c.b || y == c.b + BASE) && x < 2 * 65536
    ensures Or(x, y) == Join(c) <==> x == c.a && y == c.b
  {}

  method Product(noDivide: bool, rem: nat, sum1: nat, ghost n: nat) returns (sum2: word)
    requires rem == n % BASE && sum1 < 65536
    ensures sum2 == (n * sum1) % BASE
  {
    RemainderFits(rem, sum1);
    sum2 := rem * sum1;
    sum2 := Mod(noDivide, sum2);
    RemainderProduct(n, sum1);
  }

  /** The sums of a concatenation from those of its parts, the second of length n. */
  function Combined(s: Sums, t: Sums, n: nat): (r: Sums)
    ensures Canonical(r)
  {
    Sums((s.a + t.a + BASE - 1) % BASE, (n * s.a + s.b + t.b + BASE - n % BASE) % BASE)
  }

  lemma TwiceReduced(x: nat)
    requires x < 3 * BASE
    ensures x % BASE == if x < BASE then x else if x < 2 * BASE then x - BASE else x - 2 * BASE
  {
    ModPlus(1, x - BASE);
    ModPlus(2, x - 2 * BASE);
  }

  lemma FourReduced(x: nat)
    requires x < 4 * BASE
    ensures x % BASE ==
            if x < BASE then x
            else if x < 2 * BASE then x - BASE
            else if x < 3 * BASE then x - 2 * BASE
            else x - 3 * BASE
  {
    TwiceReduced(if x < 3 * BASE then x else x - BASE);
    ModPlus(1, x - BASE);
  }

  lemma FiveReduced(x: nat)
    requires x < 5 * BASE
    ensures x < 4 * BASE ==>
            x % BASE ==
            if x < BASE then x
            else if x < 2 * BASE then x - BASE
            else if x < 3 * BASE then x - 2 * BASE
            else x - 3 * BASE
    ensures x >= 4 * BASE ==> x % BASE == x - 4 * BASE
  {
    FourReduced(if x < 4 * BASE then x else x - BASE);
    ModPlus(1, x - BASE);
  }

  lemma CombinedParts(s: Sums, t: Sums, n: nat, x: nat, y: nat)
    requires x == s.a + t.a + BASE - 1 && y == (n * s.a) % BASE + s.b + t.b + BASE - n % BASE
    ensures Combined(s, t, n) == Sums(x % BASE, y % BASE)
  {
    ModAdd(n * s.a, s.b + t.b + BASE - n % BASE);
  }

  lemma RemainderFits(rem: nat, sum1: nat)
    requires rem < BASE && sum1 < 65536
    ensures rem * sum1 < WORD
  {
    MulBound(rem, sum1, BASE - 1, 65535);
  }

  lemma MulBound(x: nat, y: nat, m: nat, n: nat)
    requires x <= m && y <= n
    ensures x * y <= m * n
  {
    assert x * y <= m * y;
    assert m * y <= m * n;
  }

  lemma RemainderProduct(n: nat, x: nat)
    ensures ((n % BASE) * x) % BASE == (n * x) % BASE
  {
    ModMul(0, x, n);
  }

  lemma SumsCombine(one: Sums, xs: seq<octet>, ys: seq<octet>)
    requires one == Sums(1, 0)
    ensures Combined(AddAll(one, xs), AddAll(one, ys), |ys|) == AddAll(one, xs + ys)
  {
    hide AddAll;
    AddAllCanonical(one, xs);
    var s, t := AddAll(one, xs), AddAll(one, ys);
    AddAllJoin(one, xs, ys);
    ClosedForm(s, ys);
    ClosedForm(one, ys);
    CombineFirst(s.a, Total(ys));
    CombineSecond(s.a, s.b, t.b, |ys|, Weighted(ys));
  }

  lemma CombineFirst(a: nat, n: nat)
    ensures (a + (1 + n) % BASE + BASE - 1) % BASE == (a + n) % BASE
  {
    ModAdd(1 + n, a + BASE - 1);
    ModPlus(1, a + n);
  }

  /** The formula gives the checksum of the concatenation of what was checksummed. */
  lemma CombineIsConcatenation(xs: seq<octet>, ys: seq<octet>)
    ensures CanonicalWord(1)
    ensures var w1, w2 := Checksum(1, xs), Checksum(1, ys);
            CanonicalWord(w1) && CanonicalWord(w2)
            && Join(Combined(Split(w1), Split(w2), |ys|)) == Checksum(1, xs + ys)
  {
    hide AddAll, Combined, Join;
    var one := Split(1);
    assert one == Sums(1, 0);
    AddAllCanonical(one, xs);
    AddAllCanonical(one, ys);
    SplitJoin(AddAll(one, xs));
    SplitJoin(AddAll(one, ys));
    SumsCombine(one, xs, ys);
  }

  lemma CombineSecond(a: nat, b: nat, b2: nat, n: nat, w: nat)
    requires b2 == (n + w) % BASE
    ensures (b + n * a + w) % BASE == (n * a + b + b2 + BASE - n % BASE) % BASE
  {
    var x := n * a + b + BASE - n % BASE;
    ModAdd(n + w, x);
    assert n + w + x == (b + n * a + w) + (n - n % BASE) + BASE;
    assert n - n % BASE == (n / BASE) * BASE;
    ModPlus(n / BASE + 1, b + n * a + w);
  }
}
