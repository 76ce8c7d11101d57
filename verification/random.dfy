/**
 Reproducible random pages (search_engine/src/lib.rs: `mix64`, `random_ids`): ids are hashes of
 their index in the stream, so any page can be computed alone.
 */
module Random {
  import opened Arithmetic

  type Word = bv64

  const I64_MAX := 0x7fff_ffff_ffff_ffff
  const TWO64 := 0x1_0000_0000_0000_0000

  // ---- the hash --------------------------------------------------------------

  function Shift30(z: Word): Word {
    z ^ (z >> 30)
  }

  function Shift27(z: Word): Word {
    z ^ (z >> 27)
  }

  function Shift31(z: Word): Word {
    z ^ (z >> 31)
  }

  function Times1(z: Word): Word {
    z * 0xbf58_476d_1ce4_e5b9
  }

  function Times2(z: Word): Word {
    z * 0x94d0_49bb_1331_11eb
  }

  function Mix64(z: Word): Word {
    Shift31(Times2(Shift27(Times1(Shift30(z)))))
  }

  /** The steps of the hash undone, last first; the factors are inverses modulo 2^64. */
  function Unmix64(h: Word): Word {
    Unshift30(Untimes1(Unshift27(Untimes2(Unshift31(h)))))
  }

  function Unshift30(y: Word): Word {
    y ^ (y >> 30) ^ (y >> 60)
  }

  function Unshift27(y: Word): Word {
    y ^ (y >> 27) ^ (y >> 54)
  }

  function Unshift31(y: Word): Word {
    y ^ (y >> 31) ^ (y >> 62)
  }

  function Untimes1(y: Word): Word {
    y * 0x96de_1b17_3f11_9089
  }

  function Untimes2(y: Word): Word {
    y * 0x3196_42b2_d24d_8ec3
  }

  lemma Shift30Undone(z: Word)
    ensures Unshift30(Shift30(z)) == z && Shift30(Unshift30(z)) == z
  {
    assert Unshift30(z ^ (z >> 30)) == z;
    assert Shift30(z ^ (z >> 30) ^ (z >> 60)) == z;
  }

  lemma Shift27Undone(z: Word)
    ensures Unshift27(Shift27(z)) == z && Shift27(Unshift27(z)) == z
  {
    assert Unshift27(z ^ (z >> 27)) == z;
    assert Shift27(z ^ (z >> 27) ^ (z >> 54)) == z;
  }

  lemma Shift31Undone(z: Word)
    ensures Unshift31(Shift31(z)) == z && Shift31(Unshift31(z)) == z
  {
    assert Unshift31(z ^ (z >> 31)) == z;
    assert Shift31(z ^ (z >> 31) ^ (z >> 62)) == z;
  }

  lemma Times1Undone(z: Word)
    ensures Untimes1(Times1(z)) == z
  {
    assert Untimes1(z * 0xbf58_476d_1ce4_e5b9) == z;
  }

  lemma Untimes1Undone(z: Word)
    ensures Times1(Untimes1(z)) == z
  {
    assert Times1(z * 0x96de_1b17_3f11_9089) == z;
  }

  lemma Times2Undone(z: Word)
    ensures Untimes2(Times2(z)) == z
  {
    assert Untimes2(z * 0x94d0_49bb_1331_11eb) == z;
  }

  lemma Untimes2Undone(z: Word)
    ensures Times2(Untimes2(z)) == z
  {
    assert Times2(z * 0x3196_42b2_d24d_8ec3) == z;
  }

  /** The hash is a bijection on 64-bit words. */
  lemma MixIsBijection(z: Word)
    ensures Unmix64(Mix64(z)) == z
    ensures Mix64(Unmix64(z)) == z
  {
    Shift30Undone(z);
    Times1Undone(Shift30(z));
    Shift27Undone(Times1(Shift30(z)));
    Times2Undone(Shift27(Times1(Shift30(z))));
    Shift31Undone(Times2(Shift27(Times1(Shift30(z)))));
    Shift31Undone(z);
    Untimes2Undone(Unshift31(z));
    Shift27Undone(Untimes2(Unshift31(z)));
    Untimes1Undone(Unshift27(Untimes2(Unshift31(z))));
    Shift30Undone(Untimes1(Unshift27(Untimes2(Unshift31(z)))));
  }

  function Xor(a: Word, b: Word): Word {
    a ^ b
  }

  lemma XorUndone(a: Word, b: Word)
    ensures Xor(a, Xor(a, b)) == b && Xor(Xor(a, b), b) == a
  {
    assert Xor(a, a ^ b) == b;
    assert Xor(a ^ b, b) == a;
  }

  /** The hash of a place of the stream; seeds and places are read as words. */
  function HashAt(seed: Word, place: Word): Word {
    Mix64(Xor(seed, Mix64(place)))
  }

  /** For one seed no two places share a hash, and every hash is taken by some place. */
  lemma HashIsBijection(seed: Word, a: Word, b: Word, h: Word)
    ensures HashAt(seed, a) == HashAt(seed, b) ==> a == b
    ensures HashAt(seed, Unmix64(Xor(seed, Unmix64(h)))) == h
  {
    MixIsBijection(Xor(seed, Mix64(a)));
    MixIsBijection(Xor(seed, Mix64(b)));
    XorUndone(seed, Mix64(a));
    XorUndone(seed, Mix64(b));
    MixIsBijection(a);
    MixIsBijection(b);
    MixIsBijection(Xor(seed, Unmix64(h)));
    XorUndone(seed, Unmix64(h));
    MixIsBijection(h);
  }

  /** Two seeds never agree on any place. */
  lemma SeedsDiffer(seed: Word, other: Word, place: Word)
    ensures HashAt(seed, place) == HashAt(other, place) ==> seed == other
  {
    MixIsBijection(Xor(seed, Mix64(place)));
    MixIsBijection(Xor(other, Mix64(place)));
    XorUndone(seed, Mix64(place));
    XorUndone(other, Mix64(place));
  }

  // ---- pages -----------------------------------------------------------------

  /** The id at each place of a stream. */
  type Ids = int -> int

  /** Seeds, places and hashes are 64-bit numbers: a negative place wraps around. */
  function PlaceHash(seed: Word, place: int): nat {
    HashAt(seed, ToWord(place)) as nat
  }

  /** A signed number read as an unsigned one. */
  function ToWord(i: int): Word {
    WordOf(i % TWO64)
  }

  /** The word of a number, byte by byte. */
  function WordOf(n: nat): Word {
    Bytes(ByteOf(n, 1), ByteOf(n, 0x100), ByteOf(n, 0x1_0000), ByteOf(n, 0x100_0000), ByteOf(n, 0x1_0000_0000),
          ByteOf(n, 0x100_0000_0000), ByteOf(n, 0x1_0000_0000_0000), ByteOf(n, 0x100_0000_0000_0000))
  }

  function Bytes(b0: bv8, b1: bv8, b2: bv8, b3: bv8, b4: bv8, b5: bv8, b6: bv8, b7: bv8): Word {
    (b0 as Word) | (b1 as Word << 8) | (b2 as Word << 16) | (b3 as Word << 24)
    | (b4 as Word << 32) | (b5 as Word << 40) | (b6 as Word << 48) | (b7 as Word << 56)
  }

  /** The byte of `n` at a power of 256. */
  function ByteOf(n: nat, place: nat): bv8
    requires place > 0
  {
    Nibbles((n / place / 16 % 16) as bv4, (n / place % 16) as bv4)
  }

  function Nibbles(high: bv4, low: bv4): bv8 {
    (high as bv8 << 4) | low as bv8
  }

  function High(b: bv8): bv8 {
    b >> 4
  }

  function Low(b: bv8): bv8 {
    b & 0xf
  }

  lemma NibblesApart(high: bv4, low: bv4)
    ensures High(Nibbles(high, low)) == high as bv8 && Low(Nibbles(high, low)) == low as bv8
  {
    assert High((high as bv8 << 4) | low as bv8) == high as bv8;
    assert Low((high as bv8 << 4) | low as bv8) == low as bv8;
  }

  lemma NibbleIsNumber(n: nat)
    requires n < 16
    ensures (n as bv4) as bv8 as nat == n
  {
    assert (n as bv4) as nat == n;
  }

  function Byte0(w: Word): Word {
    (w >> 0) & 0xff
  }

  function Byte1(w: Word): Word {
    (w >> 8) & 0xff
  }

  function Byte2(w: Word): Word {
    (w >> 16) & 0xff
  }

  function Byte3(w: Word): Word {
    (w >> 24) & 0xff
  }

  function Byte4(w: Word): Word {
    (w >> 32) & 0xff
  }

  function Byte5(w: Word): Word {
    (w >> 40) & 0xff
  }

  function Byte6(w: Word): Word {
    (w >> 48) & 0xff
  }

  function Byte7(w: Word): Word {
    (w >> 56) & 0xff
  }

  lemma BytesApart(b0: bv8, b1: bv8, b2: bv8, b3: bv8, b4: bv8, b5: bv8, b6: bv8, b7: bv8)
    ensures var w := Bytes(b0, b1, b2, b3, b4, b5, b6, b7);
            && Byte0(w) == b0 as Word && Byte1(w) == b1 as Word && Byte2(w) == b2 as Word && Byte3(w) == b3 as Word
            && Byte4(w) == b4 as Word && Byte5(w) == b5 as Word && Byte6(w) == b6 as Word && Byte7(w) == b7 as Word
  {
    var w := (b0 as Word) | (b1 as Word << 8) | (b2 as Word << 16) | (b3 as Word << 24)
             | (b4 as Word << 32) | (b5 as Word << 40) | (b6 as Word << 48) | (b7 as Word << 56);
    assert Byte0(w) == b0 as Word && Byte1(w) == b1 as Word && Byte2(w) == b2 as Word && Byte3(w) == b3 as Word;
    assert Byte4(w) == b4 as Word && Byte5(w) == b5 as Word && Byte6(w) == b6 as Word && Byte7(w) == b7 as Word;
  }

  function IdsIn(hash: int -> nat, min: int, max: int): (at: Ids)
    requires min <= max
    ensures forall place :: min <= at(place) <= max
  {
    var at := (place: int) => InRange(min, max, hash(place));
    assert forall place :: at(place) == InRange(min, max, hash(place));
    at
  }

  function IdsOf(seed: Word, min: int, max: int): (at: Ids)
    requires min <= max
    ensures forall place :: min <= at(place) <= max
  {
    IdsIn((place: int) => PlaceHash(seed, place), min, max)
  }

  function InRange(min: int, max: int, hash: nat): (id: int)
    requires min <= max
    ensures min <= id <= max
  {
    min + hash % (max - min + 1)
  }

  /** Equal bytes are equal digits. */
  lemma SameByte(n: nat, m: nat, place: nat)
    requires place > 0 && ByteOf(n, place) == ByteOf(m, place)
    ensures n / place % 256 == m / place % 256
  {
    var a, b := n / place, m / place;
    NibblesApart((a / 16 % 16) as bv4, (a % 16) as bv4);
    NibblesApart((b / 16 % 16) as bv4, (b % 16) as bv4);
    NibbleIsNumber(a / 16 % 16);
    NibbleIsNumber(a % 16);
    NibbleIsNumber(b / 16 % 16);
    NibbleIsNumber(b % 16);
    TwoDigits(a);
    TwoDigits(b);
  }

  lemma TwoDigits(a: int)
    ensures a % 256 == a / 16 % 16 * 16 + a % 16
  {
    assert a == 256 * (a / 256) + a % 256;
  }

  lemma WideBytes(a: bv8, b: bv8)
    requires a as Word == b as Word
    ensures a == b
  {
  }

  lemma BytesDiffer(b0: bv8, b1: bv8, b2: bv8, b3: bv8, b4: bv8, b5: bv8, b6: bv8, b7: bv8,
                    c0: bv8, c1: bv8, c2: bv8, c3: bv8, c4: bv8, c5: bv8, c6: bv8, c7: bv8)
    requires Bytes(b0, b1, b2, b3, b4, b5, b6, b7) == Bytes(c0, c1, c2, c3, c4, c5, c6, c7)
    ensures b0 == c0 && b1 == c1 && b2 == c2 && b3 == c3 && b4 == c4 && b5 == c5 && b6 == c6 && b7 == c7
  {
    BytesApart(b0, b1, b2, b3, b4, b5, b6, b7);
    BytesApart(c0, c1, c2, c3, c4, c5, c6, c7);
    WideBytes(b0, c0);
    WideBytes(b1, c1);
    WideBytes(b2, c2);
    WideBytes(b3, c3);
    WideBytes(b4, c4);
    WideBytes(b5, c5);
    WideBytes(b6, c6);
    WideBytes(b7, c7);
  }

  lemma SameBytes(n: nat, m: nat)
    requires WordOf(n) == WordOf(m)
    ensures ByteOf(n, 1) == ByteOf(m, 1)
    ensures ByteOf(n, 0x100) == ByteOf(m, 0x100)
    ensures ByteOf(n, 0x1_0000) == ByteOf(m, 0x1_0000)
    ensures ByteOf(n, 0x100_0000) == ByteOf(m, 0x100_0000)
    ensures ByteOf(n, 0x1_0000_0000) == ByteOf(m, 0x1_0000_0000)
    ensures ByteOf(n, 0x100_0000_0000) == ByteOf(m, 0x100_0000_0000)
    ensures ByteOf(n, 0x1_0000_0000_0000) == ByteOf(m, 0x1_0000_0000_0000)
    ensures ByteOf(n, 0x100_0000_0000_0000) == ByteOf(m, 0x100_0000_0000_0000)
  {
    BytesDiffer(ByteOf(n, 1), ByteOf(n, 0x100), ByteOf(n, 0x1_0000), ByteOf(n, 0x100_0000),
                ByteOf(n, 0x1_0000_0000), ByteOf(n, 0x100_0000_0000), ByteOf(n, 0x1_0000_0000_0000), ByteOf(n, 0x100_0000_0000_0000),
                ByteOf(m, 1), ByteOf(m, 0x100), ByteOf(m, 0x1_0000), ByteOf(m, 0x100_0000),
                ByteOf(m, 0x1_0000_0000), ByteOf(m, 0x100_0000_0000), ByteOf(m, 0x1_0000_0000_0000), ByteOf(m, 0x100_0000_0000_0000));
  }

  lemma SameAbove(n: nat, m: nat, place: nat)
    requires place > 0 && n / place % 256 == m / place % 256 && n / place / 256 == m / place / 256
    ensures n / place == m / place
  {
  }

  lemma SameHighHalf(n: nat, m: nat)
    requires n < TWO64 && m < TWO64 && WordOf(n) == WordOf(m)
    ensures n / 0x1_0000_0000 == m / 0x1_0000_0000
  {
    SameBytes(n, m);
    SameByte(n, m, 0x100_0000_0000_0000);
    SameAbove(n, m, 0x100_0000_0000_0000);
    SameByte(n, m, 0x1_0000_0000_0000);
    assert n / 0x1_0000_0000_0000 / 256 == n / 0x100_0000_0000_0000 && m / 0x1_0000_0000_0000 / 256 == m / 0x100_0000_0000_0000;
    SameAbove(n, m, 0x1_0000_0000_0000);
    SameByte(n, m, 0x100_0000_0000);
    assert n / 0x100_0000_0000 / 256 == n / 0x1_0000_0000_0000 && m / 0x100_0000_0000 / 256 == m / 0x1_0000_0000_0000;
    SameAbove(n, m, 0x100_0000_0000);
    SameByte(n, m, 0x1_0000_0000);
    assert n / 0x1_0000_0000 / 256 == n / 0x100_0000_0000 && m / 0x1_0000_0000 / 256 == m / 0x100_0000_0000;
    SameAbove(n, m, 0x1_0000_0000);
  }

  /** Numbers below 2^64 are told apart by their words. */
  lemma WordsDiffer(n: nat, m: nat)
    requires n < TWO64 && m < TWO64 && WordOf(n) == WordOf(m)
    ensures n == m
  {
    SameHighHalf(n, m);
    SameBytes(n, m);
    SameByte(n, m, 0x100_0000);
    assert n / 0x100_0000 / 256 == n / 0x1_0000_0000 && m / 0x100_0000 / 256 == m / 0x1_0000_0000;
    SameAbove(n, m, 0x100_0000);
    SameByte(n, m, 0x1_0000);
    assert n / 0x1_0000 / 256 == n / 0x100_0000 && m / 0x1_0000 / 256 == m / 0x100_0000;
    SameAbove(n, m, 0x1_0000);
    SameByte(n, m, 0x100);
    assert n / 0x100 / 256 == n / 0x1_0000 && m / 0x100 / 256 == m / 0x1_0000;
    SameAbove(n, m, 0x100);
    SameByte(n, m, 1);
    assert n / 1 / 256 == n / 0x100 && m / 1 / 256 == m / 0x100;
    SameAbove(n, m, 1);
  }

  predicate IsI64(i: int) {
    -I64_MAX - 1 <= i <= I64_MAX
  }

  lemma RemaindersDiffer(i: int, j: int)
    requires IsI64(i) && IsI64(j) && i % TWO64 == j % TWO64
    ensures i == j
  {
  }

  lemma WrapsApart(i: int, j: int, n: nat, m: nat)
    requires IsI64(i) && IsI64(j) && n == i % TWO64 && m == j % TWO64 && WordOf(n) == WordOf(m)
    ensures i == j
  {
    WordsDiffer(n, m);
    RemaindersDiffer(i, j);
  }

  lemma WordReads(a: Word, b: Word)
    requires a as nat == b as nat
    ensures a == b
  {
    assert (a as nat) as Word == a && (b as nat) as Word == b;
  }

  /** For a fixed seed the raw hash is injective in the signed 64-bit index. */
  lemma PlacesDiffer(seed: Word, i: int, j: int)
    requires IsI64(i) && IsI64(j) && PlaceHash(seed, i) == PlaceHash(seed, j)
    ensures i == j
  {
    WordReads(HashAt(seed, ToWord(i)), HashAt(seed, ToWord(j)));
    HashIsBijection(seed, ToWord(i), ToWord(j), 0);
    WrapsApart(i, j, i % TWO64, j % TWO64);
  }

  /** Two hashes give the same id exactly when they agree modulo the size of the range. */
  lemma SameIdIff(min: int, max: int, a: nat, b: nat)
    requires min <= max
    ensures InRange(min, max, a) == InRange(min, max, b) <==> (a - b) % (max - min + 1) == 0
  {
    var span := max - min + 1;
    var r, s := a % span, b % span;
    var q := a / span - b / span;
    Quotients(a, span);
    Quotients(b, span);
    SpanFactor(q, span, a / span, b / span);
    assert a - b == q * span + (r - s);
    DifferenceMod(q, span, r - s);
  }

  lemma Quotients(x: nat, span: nat)
    requires span > 0
    ensures x == x / span * span + x % span && 0 <= x % span < span
  {
  }

  lemma SpanFactor(q: int, span: nat, x: int, y: int)
    requires q == x - y
    ensures q * span == x * span - y * span
  {
  }

  lemma DifferenceMod(q: int, span: nat, d: int)
    requires 0 < span + d && d < span
    ensures (q * span + d) % span == 0 <==> d == 0
  {
    var n := q * span + d;
    var p := n / span;
    assert n == p * span + n % span && 0 <= n % span < span;
    NextMultiple(p, q, span);
    NextMultiple(q, p, span);
    NextMultiple(p, q - 1, span);
    NextMultiple(q + 1, p, span);
    assert (q - 1) * span == q * span - span && (q + 1) * span == q * span + span;
  }

  /** Every id of the range is the id of some hash, the same one after every `span` hashes. */
  lemma EveryIdOccurs(min: int, max: int, id: int, n: nat)
    requires min <= id <= max
    ensures n * (max - min + 1) >= 0 && InRange(min, max, id - min + n * (max - min + 1)) == id
  {
    var span := max - min + 1;
    MulMonotone(span, 0, n);
    assert (id - min) % span == id - min;
    SameIdIff(min, max, id - min + n * span, id - min);
    DifferenceMod(n, span, 0);
  }

  /** The raw ids of places `from..until`, duplicates included. */
  function Raw(at: Ids, from: int, until: int): (r: seq<int>)
    decreases until - from
  {
    if until <= from then [] else Raw(at, from, until - 1) + [at(until - 1)]
  }

  lemma {:induction false} RawAt(at: Ids, from: int, until: int)
    ensures |Raw(at, from, until)| == if from <= until then until - from else 0
    ensures forall k :: 0 <= k < |Raw(at, from, until)| ==> Raw(at, from, until)[k] == at(from + k)
    decreases until - from
  {
    if from < until {
      RawAt(at, from, until - 1);
    }
  }

  /** First occurrences only. */
  function Dedupe(s: seq<int>): (r: seq<int>) {
    if s == [] then []
    else
      var r := Dedupe(s[..|s| - 1]);
      if s[|s| - 1] in r then r else r + [s[|s| - 1]]
  }

  function SaturatingAdd(a: int, b: int): int {
    if a + b > I64_MAX then I64_MAX else a + b
  }

  function Page(at: Ids, limit: int, offset: int): seq<int> {
    Dedupe(Raw(at, offset, SaturatingAdd(offset, limit)))
  }

  method RandomPage(at: Ids, limit: int, offset: int) returns (ids: seq<int>)
    ensures ids == Page(at, limit, offset)
  {
    var seen := {};
    ids := [];
    var end := SaturatingAdd(offset, limit);
    var i := offset;
    while i < end
      invariant offset <= i && (i <= end || i == offset)
      invariant ids == Dedupe(Raw(at, offset, i))
      invariant seen == set id | id in ids
    {
      var id := at(i);
      ghost var before := Raw(at, offset, i);
      assert Raw(at, offset, i + 1) == before + [id];
      assert (before + [id])[..|before|] == before;
      if id !in seen {
        seen := seen + {id};
        ids := ids + [id];
      }
      i := i + 1;
    }
  }

  method RandomIds(seed: Word, min: int, max: int, limit: int, offset: int) returns (ids: seq<int>)
    requires min <= max
    ensures ids == Page(IdsOf(seed, min, max), limit, offset)
    ensures Distinct(ids) && forall id :: id in ids ==> min <= id <= max
  {
    ids := RandomPage(IdsOf(seed, min, max), limit, offset);
    PageIsDistinct(IdsOf(seed, min, max), limit, offset);
    PageInRange(IdsOf(seed, min, max), min, max, limit, offset);
  }

  /** Where `x` first occurs. */
  function FirstAt(s: seq<int>, x: int): (k: nat)
    requires x in s
    ensures k < |s| && s[k] == x && forall j :: 0 <= j < k ==> s[j] != x
  {
    if x in s[..|s| - 1] then FirstAt(s[..|s| - 1], x) else |s| - 1
  }

  /** The same ids, each once, in the order they first occur. */
  lemma {:induction false} DedupeOrder(s: seq<int>)
    ensures forall x :: x in Dedupe(s) <==> x in s
    ensures forall a, b :: 0 <= a < b < |Dedupe(s)| ==> FirstAt(s, Dedupe(s)[a]) < FirstAt(s, Dedupe(s)[b])
  {
    if s != [] {
      var front, last := s[..|s| - 1], s[|s| - 1];
      DedupeOrder(front);
      assert s == front + [last];
      forall x | x in front ensures FirstAt(s, x) == FirstAt(front, x) {
      }
    }
  }

  lemma {:induction false} DedupeJoin(a: seq<int>, b: seq<int>)
    ensures Dedupe(a + b) == Dedupe(Dedupe(a) + b)
  {
    if b == [] {
      assert a + b == a && Dedupe(a) + b == Dedupe(a);
      DedupeOnce(a);
    } else {
      var front := b[..|b| - 1];
      DedupeJoin(a, front);
      assert (a + b)[..|a + b| - 1] == a + front;
      assert (Dedupe(a) + b)[..|Dedupe(a) + b| - 1] == Dedupe(a) + front;
    }
  }

  predicate Distinct(s: seq<int>) {
    forall a, b :: 0 <= a < b < |s| ==> s[a] != s[b]
  }

  lemma {:induction false} DedupeDistinct(s: seq<int>)
    requires Distinct(s)
    ensures Dedupe(s) == s
  {
    if s != [] {
      DedupeDistinct(s[..|s| - 1]);
    }
  }

  lemma DedupeOnce(s: seq<int>)
    ensures Distinct(Dedupe(s)) && Dedupe(Dedupe(s)) == Dedupe(s)
  {
    DedupeOrder(s);
    DedupeDistinct(Dedupe(s));
  }

  lemma {:induction false} DedupeTail(a: seq<int>, b: seq<int>)
    ensures Dedupe(a + Dedupe(b)) == Dedupe(a + b)
  {
    if b != [] {
      var front, last := b[..|b| - 1], b[|b| - 1];
      DedupeTail(a, front);
      assert (a + b)[..|a + b| - 1] == a + front;
      if last in Dedupe(front) {
        DedupeOrder(front);
        DedupeOrder(a + front);
        assert last in a + front;
      } else {
        assert a + Dedupe(b) == (a + Dedupe(front)) + [last];
        assert ((a + Dedupe(front)) + [last])[..|a + Dedupe(front)|] == a + Dedupe(front);
      }
    }
  }

  lemma {:induction false} RawJoin(at: Ids, from: int, middle: int, until: int)
    requires from <= middle <= until
    ensures Raw(at, from, until) == Raw(at, from, middle) + Raw(at, middle, until)
    decreases until - middle
  {
    if middle < until {
      RawJoin(at, from, middle, until - 1);
    }
  }

  /** A page of `a + b` ids shows what the adjacent pages of `a` and `b` show, each id once, in the same order. */
  lemma PagesJoin(at: Ids, a: nat, b: nat, offset: int)
    requires offset + a <= I64_MAX
    ensures Page(at, a + b, offset) == Dedupe(Page(at, a, offset) + Page(at, b, offset + a))
  {
    var middle, until := offset + a, SaturatingAdd(offset, a + b);
    assert SaturatingAdd(offset, a) == middle && SaturatingAdd(middle, b) == until;
    var first, second := Raw(at, offset, middle), Raw(at, middle, until);
    assert Page(at, a, offset) == Dedupe(first) && Page(at, b, middle) == Dedupe(second);
    RawJoin(at, offset, middle, until);
    DedupeJoin(first, second);
    DedupeTail(Dedupe(first), second);
  }

  /** The ids of a page are distinct, and in the order their places yield them. */
  lemma PageIsDistinct(at: Ids, limit: int, offset: int)
    ensures var page, raw := Page(at, limit, offset), Raw(at, offset, SaturatingAdd(offset, limit));
            && Distinct(page)
            && (forall id :: id in page <==> id in raw)
            && (forall j, k :: 0 <= j < k < |page| ==> FirstAt(raw, page[j]) < FirstAt(raw, page[k]))
  {
    var raw := Raw(at, offset, SaturatingAdd(offset, limit));
    DedupeOrder(raw);
    DedupeOnce(raw);
  }

  /** A page holds only ids of its stream: those of a random stream are in range. */
  lemma PageInRange(at: Ids, min: int, max: int, limit: int, offset: int)
    requires forall place :: min <= at(place) <= max
    ensures forall id :: id in Page(at, limit, offset) ==> min <= id <= max
  {
    var raw := Raw(at, offset, SaturatingAdd(offset, limit));
    DedupeOrder(raw);
    RawAt(at, offset, SaturatingAdd(offset, limit));
    forall id | id in raw ensures min <= id <= max {
      var k :| 0 <= k < |raw| && raw[k] == id;
    }
  }

  /** A page shows exactly the ids of the next `limit` places, as far as places go. */
  lemma PageIds(at: Ids, limit: nat, offset: int, id: int)
    requires offset <= I64_MAX
    ensures id in Page(at, limit, offset) <==> exists i :: offset <= i < offset + limit && i < I64_MAX && at(i) == id
  {
    var until := SaturatingAdd(offset, limit);
    var raw := Raw(at, offset, until);
    DedupeOrder(raw);
    RawAt(at, offset, until);
    if id in raw {
      var k :| 0 <= k < |raw| && raw[k] == id;
      assert at(offset + k) == id;
    }
    if i :| offset <= i < offset + limit && i < I64_MAX && at(i) == id {
      assert raw[i - offset] == id;
    }
  }
}
