/**
 Base58 (user_worker/src/pages/login.html and account.html, `bs58encode`).

 The encoder converts the bytes to base 58 in place, digit by digit. It is proved to
 produce the canonical digits of the number the bytes spell, one '1' for each leading
 zero byte, and a reference decoder is proved to give the bytes back.
 */
module Base58 {
  type Byte = b: int | 0 <= b < 256

  /** The Bitcoin alphabet, written in the runs between the characters it leaves out. */
  const ALPH := "123456789" + "ABCDEFGH" + "JKLMN" + "PQRSTUVWXYZ" + "abcdefghijk" + "mnopqrstuvwxyz"

  /** The number the bytes spell, most significant first. */
  function Value256(bytes: seq<Byte>): nat {
    if bytes == [] then 0 else 256 * Value256(bytes[..|bytes| - 1]) + bytes[|bytes| - 1]
  }

  /** The number base-58 digits spell, least significant first. */
  function Value58(digits: seq<nat>): nat {
    if digits == [] then 0 else digits[0] + 58 * Value58(digits[1..])
  }

  predicate IsDigits(digits: seq<nat>) {
    forall i :: 0 <= i < |digits| ==> digits[i] < 58
  }

  /** No leading zero, except for zero itself. */
  predicate Canonical(digits: seq<nat>) {
    digits != [] && IsDigits(digits) && (digits == [0] || digits[|digits| - 1] != 0)
  }

  /** The canonical digits of `v`. */
  function Digits58(v: nat): (digits: seq<nat>)
    ensures Canonical(digits) && Value58(digits) == v
  {
    if v < 58 then [v]
    else
      var rest := Digits58(v / 58);
      assert ([v % 58] + rest)[1..] == rest;
      [v % 58] + rest
  }

  lemma {:induction false} ZeroDigits(a: seq<nat>)
    requires IsDigits(a) && Value58(a) == 0 && a != []
    ensures a[|a| - 1] == 0
  {
    if |a| > 1 {
      ZeroDigits(a[1..]);
    }
  }

  lemma {:induction false} CanonicalUnique(a: seq<nat>, b: seq<nat>)
    requires Canonical(a) && Canonical(b) && Value58(a) == Value58(b)
    ensures a == b
  {
    var a', b' := a[1..], b[1..];
    assert a[0] == b[0] && Value58(a') == Value58(b');
    if a' == [] || b' == [] {
      if a' != [] {
        ZeroDigits(a');
      }
      if b' != [] {
        ZeroDigits(b');
      }
    } else {
      CanonicalTail(a);
      CanonicalTail(b);
      CanonicalUnique(a', b');
    }
    assert a == [a[0]] + a' && b == [b[0]] + b';
  }

  lemma CanonicalTail(a: seq<nat>)
    requires Canonical(a) && |a| > 1
    ensures Canonical(a[1..])
  {
    assert a[1..][|a| - 2] == a[|a| - 1];
  }

  /** `256 * digits + carry`, in base 58: what one byte does to the digits. */
  function MulAdd(digits: seq<nat>, carry: nat): seq<nat>
    decreases |digits|, carry
  {
    if digits == [] then
      if carry == 0 then [] else [carry % 58] + MulAdd([], carry / 58)
    else
      var x := carry + 256 * digits[0];
      [x % 58] + MulAdd(digits[1..], x / 58)
  }

  lemma {:induction false} MulAddValue(digits: seq<nat>, carry: nat)
    ensures IsDigits(MulAdd(digits, carry)) && Value58(MulAdd(digits, carry)) == 256 * Value58(digits) + carry
    decreases |digits|, carry
  {
    var r := MulAdd(digits, carry);
    if digits != [] {
      var x := carry + 256 * digits[0];
      MulAddValue(digits[1..], x / 58);
      assert r[1..] == MulAdd(digits[1..], x / 58);
    } else if carry != 0 {
      MulAddValue([], carry / 58);
      assert r[1..] == MulAdd([], carry / 58);
    }
  }

  lemma {:induction false} MulAddTop(digits: seq<nat>, carry: nat)
    requires if digits == [] then carry > 0 else digits[|digits| - 1] != 0
    ensures var r := MulAdd(digits, carry); r != [] && r[|r| - 1] != 0
    decreases |digits|, carry
  {
    if digits != [] {
      MulAddTop(digits[1..], (carry + 256 * digits[0]) / 58);
    } else if carry >= 58 {
      MulAddTop([], carry / 58);
    }
  }

  /** Folding in one more byte keeps the digits canonical. */
  lemma MulAddCanonical(v: nat, b: Byte)
    ensures MulAdd(Digits58(v), b) == Digits58(256 * v + b)
  {
    var ds := Digits58(v);
    MulAddValue(ds, b);
    if ds == [0] {
      assert ds[1..] == [];
      if b >= 58 {
        MulAddTop([], b / 58);
      }
    } else {
      MulAddTop(ds, b);
    }
    CanonicalUnique(MulAdd(ds, b), Digits58(256 * v + b));
  }

  // ---- the encoding --------------------------------------------------------

  function LeadingZeros(bytes: seq<Byte>): (z: nat)
    ensures z <= |bytes| && (forall i :: 0 <= i < z ==> bytes[i] == 0) && (z < |bytes| ==> bytes[z] != 0)
  {
    if bytes == [] || bytes[0] != 0 then 0
    else
      var z := LeadingZeros(bytes[1..]);
      assert forall i :: 0 < i <= z ==> bytes[i] == bytes[1..][i - 1];
      1 + z
  }

  function Ones(n: nat): (s: string)
    ensures |s| == n && forall i :: 0 <= i < n ==> s[i] == '1'
  {
    seq(n, i => '1')
  }

  /** The digits as characters, most significant first. */
  function Chars(digits: seq<nat>): (s: string)
    requires IsDigits(digits)
    ensures |s| == |digits| && forall i :: 0 <= i < |s| ==> s[i] == ALPH[digits[|digits| - 1 - i]]
  {
    seq(|digits|, i requires 0 <= i < |digits| => ALPH[digits[|digits| - 1 - i]])
  }

  /** One per leading zero byte; the last of all-zero input is left to the digit zero. */
  function OnesFor(bytes: seq<Byte>): nat
    requires bytes != []
  {
    var z := LeadingZeros(bytes);
    if z < |bytes| then z else z - 1
  }

  function Encode(bytes: seq<Byte>): string {
    if bytes == [] then ""
    else
      Ones(OnesFor(bytes)) + Chars(Digits58(Value256(bytes)))
  }

  lemma FoldStep(done: seq<nat>, digits0: seq<nat>, j: nat, carry: nat)
    requires j < |digits0|
    ensures var x := carry + 256 * digits0[j];
            done + MulAdd(digits0[j..], carry) == done + [x % 58] + MulAdd(digits0[j + 1..], x / 58)
  {
    assert digits0[j..][0] == digits0[j] && digits0[j..][1..] == digits0[j + 1..];
  }

  lemma CarryFits(digit: nat, carry: nat)
    requires digit < 58 && carry < 256
    ensures (carry + 256 * digit) / 58 < 256
  {
  }

  /** Fold one byte into the digits, in place. */
  method FoldByte(digits0: seq<nat>, b: Byte) returns (digits: seq<nat>)
    requires IsDigits(digits0)
    ensures digits == MulAdd(digits0, b)
  {
    digits := digits0;
    var carry: nat := b;
    var j := 0;
    while j < |digits|
      invariant 0 <= j <= |digits| == |digits0| && digits[j..] == digits0[j..]
      invariant carry < 256 // so the 32-bit operations never overflow
      invariant digits[..j] + MulAdd(digits0[j..], carry) == MulAdd(digits0, b)
    {
      assert digits[j] == digits[j..][0] == digits0[j];
      FoldStep(digits[..j], digits0, j, carry);
      CarryFits(digits0[j], carry);
      carry := carry + digits[j] * 256;
      digits := digits[j := carry % 58];
      carry := carry / 58;
      j := j + 1;
      assert digits[..j] == digits[..j - 1] + [digits[j - 1]];
    }
    assert digits0[j..] == [] && digits[..j] == digits;
    digits := PutCarry(digits, carry);
  }

  /** What is left of the carry becomes new top digits. */
  method PutCarry(low: seq<nat>, carry0: nat) returns (digits: seq<nat>)
    ensures digits == low + MulAdd([], carry0)
  {
    digits := low;
    var carry := carry0;
    while carry > 0
      invariant digits + MulAdd([], carry) == low + MulAdd([], carry0)
    {
      digits := digits + [carry % 58];
      carry := carry / 58;
    }
  }

  method ToDigits(bytes: seq<Byte>) returns (digits: seq<nat>)
    ensures digits == Digits58(Value256(bytes))
  {
    digits := [0];
    var i := 0;
    while i < |bytes|
      invariant 0 <= i <= |bytes|
      invariant digits == Digits58(Value256(bytes[..i]))
    {
      assert bytes[..i + 1][..i] == bytes[..i];
      MulAddCanonical(Value256(bytes[..i]), bytes[i]);
      digits := FoldByte(digits, bytes[i]);
      i := i + 1;
    }
    assert bytes[..i] == bytes;
  }

  method Bs58Encode(bytes: seq<Byte>) returns (out: string)
    ensures out == Encode(bytes)
  {
    if |bytes| == 0 {
      return "";
    }
    var digits := ToDigits(bytes);
    out := PutOnes(bytes);
    out := PutChars(out, digits);
  }

  method PutOnes(bytes: seq<Byte>) returns (out: string)
    requires bytes != []
    ensures out == Ones(OnesFor(bytes))
  {
    out := "";
    var k := 0;
    while k < |bytes| - 1 && bytes[k] == 0
      invariant 0 <= k <= LeadingZeros(bytes) && k <= |bytes| - 1
      invariant out == Ones(k)
    {
      out := out + "1";
      k := k + 1;
    }
  }

  /** Appends the digits' characters, most significant first. */
  method PutChars(start: string, digits: seq<nat>) returns (out: string)
    requires IsDigits(digits)
    ensures out == start + Chars(digits)
  {
    out := start;
    ghost var chars := Chars(digits);
    var q := |digits| - 1;
    while q >= 0
      invariant -1 <= q < |digits|
      invariant out == start + chars[..|digits| - 1 - q]
    {
      out := out + [ALPH[digits[q]]];
      q := q - 1;
    }
  }

  // ---- the reference decoder -----------------------------------------------

  /** A character's digit. */
  function Index(c: char): nat {
    if '1' <= c <= '9' then c as nat - '1' as nat
    else if 'A' <= c <= 'H' then 9 + c as nat - 'A' as nat
    else if 'J' <= c <= 'N' then 17 + c as nat - 'J' as nat
    else if 'P' <= c <= 'Z' then 22 + c as nat - 'P' as nat
    else if 'a' <= c <= 'k' then 33 + c as nat - 'a' as nat
    else if 'm' <= c <= 'z' then 44 + c as nat - 'm' as nat
    else 58
  }

  lemma DigitIndex(d: nat)
    requires d < 9
    ensures Index(ALPH[d]) == d
  {
    assert ALPH[d] == "123456789"[d];
  }

  lemma UpperIndex(d: nat)
    requires 9 <= d < 33
    ensures Index(ALPH[d]) == d
  {
    if d < 17 {
      assert ALPH[d] == "ABCDEFGH"[d - 9];
    } else if d < 22 {
      assert ALPH[d] == "JKLMN"[d - 17];
    } else {
      assert ALPH[d] == "PQRSTUVWXYZ"[d - 22];
    }
  }

  lemma LowerIndex(d: nat)
    requires 33 <= d < 58
    ensures Index(ALPH[d]) == d
  {
    if d < 44 {
      assert ALPH[d] == "abcdefghijk"[d - 33];
    } else {
      assert ALPH[d] == "mnopqrstuvwxyz"[d - 44];
    }
  }

  lemma AlphabetIndex(d: nat)
    requires d < 58
    ensures Index(ALPH[d]) == d
  {
    if d < 9 {
      DigitIndex(d);
    } else if d < 33 {
      UpperIndex(d);
    } else {
      LowerIndex(d);
    }
  }

  function LeadingOnes(s: string): (z: nat)
    ensures z <= |s|
  {
    if s == "" || s[0] != '1' then 0 else 1 + LeadingOnes(s[1..])
  }

  function ValueOf(s: string): nat {
    if s == "" then 0 else 58 * ValueOf(s[..|s| - 1]) + Index(s[|s| - 1])
  }

  /** The fewest bytes that spell `v`. */
  function Bytes256(v: nat): seq<Byte> {
    if v == 0 then [] else Bytes256(v / 256) + [v % 256]
  }

  function Zeros(n: nat): seq<Byte> {
    seq(n, i => 0)
  }

  function Decode(s: string): seq<Byte> {
    var z := LeadingOnes(s);
    Zeros(z) + Bytes256(ValueOf(s[z..]))
  }

  lemma {:induction false} CharsValue(digits: seq<nat>)
    requires IsDigits(digits)
    ensures ValueOf(Chars(digits)) == Value58(digits)
  {
    if digits != [] {
      CharsValue(digits[1..]);
      AlphabetIndex(digits[0]);
      assert Chars(digits)[..|digits| - 1] == Chars(digits[1..]);
    }
  }

  lemma {:induction false} BytesOfValue(bytes: seq<Byte>)
    requires bytes == [] || bytes[0] != 0
    ensures Bytes256(Value256(bytes)) == bytes
    ensures bytes != [] ==> Value256(bytes) > 0
  {
    if bytes != [] {
      var init := bytes[..|bytes| - 1];
      BytesOfValue(init);
      assert bytes == init + [bytes[|bytes| - 1]];
    }
  }

  lemma {:induction false} ZerosAddNothing(n: nat, rest: seq<Byte>)
    ensures Value256(Zeros(n) + rest) == Value256(rest)
  {
    var bytes := Zeros(n) + rest;
    if rest != [] {
      ZerosAddNothing(n, rest[..|rest| - 1]);
      assert bytes[..|bytes| - 1] == Zeros(n) + rest[..|rest| - 1];
    } else if n > 0 {
      ZerosAddNothing(n - 1, []);
      assert bytes[..|bytes| - 1] == Zeros(n - 1) + [];
    }
  }

  lemma {:induction false} OnesThen(n: nat, s: string)
    requires s == "" || s[0] != '1'
    ensures LeadingOnes(Ones(n) + s) == n && (Ones(n) + s)[n..] == s
  {
    if n > 0 {
      OnesThen(n - 1, s);
      assert (Ones(n) + s)[1..] == Ones(n - 1) + s;
    }
  }

  /** The digits of a positive number do not start with a '1'. */
  lemma TopChar(v: nat)
    requires v > 0
    ensures var s := Chars(Digits58(v)); s != "" && s[0] != '1' && ValueOf(s) == v
  {
    var digits := Digits58(v);
    var top := digits[|digits| - 1];
    assert top != 0;
    AlphabetIndex(top);
    assert Index('1') == 0;
    CharsValue(digits);
  }

  /** A leading '1' in the text for each leading zero byte, also when there is nothing else. */
  lemma EncodeShape(bytes: seq<Byte>)
    ensures var z := LeadingZeros(bytes);
            && LeadingOnes(Encode(bytes)) == z
            && ValueOf(Encode(bytes)[z..]) == Value256(bytes[z..])
  {
    var z := LeadingZeros(bytes);
    var rest := bytes[z..];
    assert bytes == Zeros(z) + rest;
    ZerosAddNothing(z, rest);
    if rest != [] {
      BytesOfValue(rest);
      TopChar(Value256(bytes));
      OnesThen(z, Chars(Digits58(Value256(bytes))));
    } else {
      AlphabetIndex(0);
      assert Encode(bytes) == Ones(z) + "";
      OnesThen(z, "");
    }
  }

  lemma DecodeParts(s: string, z: nat, v: nat)
    requires LeadingOnes(s) == z && ValueOf(s[z..]) == v
    ensures Decode(s) == Zeros(z) + Bytes256(v)
  {
  }

  /** Decoding gives the bytes back, for every byte string. */
  lemma RoundTrip(bytes: seq<Byte>)
    ensures Decode(Encode(bytes)) == bytes
  {
    var z := LeadingZeros(bytes);
    var rest := bytes[z..];
    EncodeShape(bytes);
    DecodeParts(Encode(bytes), z, Value256(rest));
    BytesOfValue(rest);
    assert bytes == Zeros(z) + rest;
  }

  lemma EncodeInjective(a: seq<Byte>, b: seq<Byte>)
    requires Encode(a) == Encode(b)
    ensures a == b
  {
    RoundTrip(a);
    RoundTrip(b);
  }
}
