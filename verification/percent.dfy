/**
 Percent coding (gateway_worker/src/lib.rs: `encode_next`, `percent_decode`, `form_field`).
 Characters stand for bytes; all characters the encoder escapes are single bytes, so escaping
 character by character and byte by byte are the same.
 */
module Percent {
  import opened Wrappers

  type Byte = b: int | 0 <= b < 256

  type Bytes = seq<Byte>

  const PERCENT: Byte := 0x25
  const PLUS: Byte := 0x2b
  const SPACE: Byte := 0x20
  const AMP: Byte := 0x26
  const EQUALS: Byte := 0x3d

  // ---- digits ----------------------------------------------------------------

  /** Rust's `to_digit(16)`. */
  function ToDigit16(b: Byte): (r: Option<nat>)
    ensures r.Some? ==> r.value < 16
  {
    if 0x30 <= b <= 0x39 then Some(b - 0x30)
    else if 0x41 <= b <= 0x46 then Some(b - 0x41 + 10)
    else if 0x61 <= b <= 0x66 then Some(b - 0x61 + 10)
    else None
  }

  function HexByte(n: nat): (b: Byte)
    requires n < 16
    ensures ToDigit16(b) == Some(n)
  {
    if n < 10 then 0x30 + n else 0x41 + (n - 10)
  }

  function Escape(b: Byte): (r: Bytes)
    ensures |r| == 3
  {
    [PERCENT, HexByte(b / 16), HexByte(b % 16)]
  }

  // ---- decoding --------------------------------------------------------------

  /** The byte an escape at the start of `s` stands for, if there is one. */
  function EscapeAt(s: Bytes): Option<Byte> {
    if |s| < 3 || s[0] != PERCENT then None
    else
      match (ToDigit16(s[1]), ToDigit16(s[2]))
      case (Some(hi), Some(lo)) => Some(hi * 16 + lo)
      case _ => None
  }

  function Decode(s: Bytes): (r: Bytes)
    ensures |r| <= |s|
  {
    if s == [] then []
    else if s[0] == PLUS then [SPACE] + Decode(s[1..])
    else if EscapeAt(s).Some? then [EscapeAt(s).value] + Decode(s[3..])
    else [s[0]] + Decode(s[1..])
  }

  method PercentDecode(s: Bytes) returns (out: Bytes)
    ensures out == Decode(s)
  {
    out := [];
    var i := 0;
    while i < |s|
      invariant i <= |s| && out + Decode(s[i..]) == Decode(s)
    {
      var b, n := ReadByte(s, i);
      DecodeFirst(s, i, b, n);
      Regroup(out, [b], Decode(s[i + n..]));
      out := out + [b];
      i := i + n;
    }
  }

  lemma Regroup(a: Bytes, b: Bytes, c: Bytes)
    ensures (a + b) + c == a + (b + c)
  {
  }

  /** One round of the decoder: the byte at `i`, and how much of the input it takes. */
  method ReadByte(s: Bytes, i: nat) returns (b: Byte, n: nat)
    requires i < |s|
    ensures n == if s[i] != PLUS && EscapeAt(s[i..]).Some? then 3 else 1
    ensures b == if s[i] == PLUS then SPACE else if EscapeAt(s[i..]).Some? then EscapeAt(s[i..]).value else s[i]
  {
    if s[i] == PLUS {
      b, n := SPACE, 1;
    } else if s[i] == PERCENT && i + 2 < |s| && ToDigit16(s[i + 1]).Some? && ToDigit16(s[i + 2]).Some? {
      b, n := ToDigit16(s[i + 1]).value * 16 + ToDigit16(s[i + 2]).value, 3;
    } else {
      b, n := s[i], 1;
    }
  }

  lemma DecodeFirst(s: Bytes, i: nat, b: Byte, n: nat)
    requires i < |s|
    requires n == if s[i] != PLUS && EscapeAt(s[i..]).Some? then 3 else 1
    requires b == if s[i] == PLUS then SPACE else if EscapeAt(s[i..]).Some? then EscapeAt(s[i..]).value else s[i]
    ensures i + n <= |s| && Decode(s[i..]) == [b] + Decode(s[i + n..])
  {
    assert s[i..][n..] == s[i + n..];
  }

  ghost predicate NoEscape(s: Bytes) {
    forall i :: 0 <= i < |s| ==> EscapeAt(s[i..]).None?
  }

  lemma {:induction false} LengthIff(s: Bytes)
    ensures |Decode(s)| == |s| <==> NoEscape(s)
  {
    if s != [] {
      var tail := s[1..];
      LengthIff(tail);
      assert s[0..] == s;
      assert forall i :: 0 <= i < |tail| ==> s[i + 1..] == tail[i..];
      assert NoEscape(s) <==> EscapeAt(s).None? && NoEscape(tail) by {
        assert forall i :: 0 < i < |s| ==> s[i..] == tail[i - 1..];
      }
    }
  }

  /** Text is passed through unchanged exactly when it has no plus sign and no well-formed escape. */
  lemma {:induction false} UnchangedIff(s: Bytes)
    ensures Decode(s) == s <==> PLUS !in s && NoEscape(s)
  {
    LengthIff(s);
    if s != [] {
      var tail := s[1..];
      UnchangedIff(tail);
      LengthIff(tail);
      assert s == [s[0]] + tail && s[0..] == s;
      assert forall i :: 0 < i < |s| ==> s[i..] == tail[i - 1..];
      assert forall i :: 0 <= i < |tail| ==> s[i + 1..] == tail[i..];
      if NoEscape(s) {
        assert EscapeAt(s).None?;
        assert Decode(s)[1..] == Decode(tail);
      }
    }
  }

  // ---- encoding --------------------------------------------------------------

  function NextCode(b: Byte): Bytes {
    if b == PERCENT then [0x25, 0x32, 0x35]
    else if b == 0x3f then [0x25, 0x33, 0x46]
    else if b == 0x23 then [0x25, 0x32, 0x33]
    else if b == AMP then [0x25, 0x32, 0x36]
    else [b]
  }

  function EncodeAll(code: Byte -> Bytes, s: Bytes): Bytes {
    if s == [] then [] else EncodeAll(code, s[..|s| - 1]) + code(s[|s| - 1])
  }

  method EncodeNext(s: Bytes) returns (out: Bytes)
    ensures out == EncodeAll(NextCode, s)
  {
    out := [];
    for i := 0 to |s|
      invariant out == EncodeAll(NextCode, s[..i])
    {
      assert s[..i + 1][..i] == s[..i];
      out := out + NextCode(s[i]);
    }
    assert s[..|s|] == s;
  }

  predicate Unreserved(b: Byte) {
    || 0x30 <= b <= 0x39 || 0x41 <= b <= 0x5a || 0x61 <= b <= 0x7a
    || b == 0x2a || b == 0x2d || b == 0x2e || b == 0x5f
  }

  /** The application/x-www-form-urlencoded serialiser (WHATWG URL Standard, section 5.2). */
  function FormCode(b: Byte): Bytes {
    if b == SPACE then [PLUS] else if Unreserved(b) then [b] else Escape(b)
  }

  /** What each byte becomes when an encoding is decoded. */
  ghost predicate DecodesTo(code: Byte -> Bytes, image: Byte -> Byte) {
    forall b: Byte, rest: Bytes :: Decode(code(b) + rest) == [image(b)] + Decode(rest)
  }

  lemma MapLast(image: Byte -> Byte, s: Bytes)
    requires s != []
    ensures Each(image, s) == Each(image, s[..|s| - 1]) + [image(s[|s| - 1])]
  {
  }

  lemma {:induction false} DecodeAll(code: Byte -> Bytes, image: Byte -> Byte, s: Bytes, rest: Bytes)
    requires DecodesTo(code, image)
    ensures Decode(EncodeAll(code, s) + rest) == Each(image, s) + Decode(rest)
  {
    if s == [] {
      assert EncodeAll(code, s) + rest == rest;
      assert Each(image, s) == [];
    } else {
      var front, last := s[..|s| - 1], s[|s| - 1];
      var more := code(last) + rest;
      Regroup(EncodeAll(code, front), code(last), rest);
      DecodeAll(code, image, front, more);
      assert Decode(more) == [image(last)] + Decode(rest);
      MapLast(image, s);
      Regroup(Each(image, front), [image(last)], Decode(rest));
    }
  }

  function PlusToSpace(b: Byte): Byte {
    if b == PLUS then SPACE else b
  }

  function Same(b: Byte): Byte {
    b
  }

  lemma NextDecodes()
    ensures DecodesTo(NextCode, PlusToSpace)
  {
    forall b: Byte, rest: Bytes ensures Decode(NextCode(b) + rest) == [PlusToSpace(b)] + Decode(rest) {
      var s := NextCode(b) + rest;
      assert |NextCode(b)| == 1 ==> s[1..] == rest;
      assert |NextCode(b)| == 3 ==> s[3..] == rest;
    }
  }

  lemma FormDecodes()
    ensures DecodesTo(FormCode, Same)
  {
    forall b: Byte, rest: Bytes ensures Decode(FormCode(b) + rest) == [Same(b)] + Decode(rest) {
      var s := FormCode(b) + rest;
      assert |FormCode(b)| == 1 ==> s[1..] == rest;
      assert |FormCode(b)| == 3 ==> s[3..] == rest;
    }
  }

  /** Decoding undoes the encoding of `next`, except that plus signs come back as spaces. */
  lemma NextRoundTrip(s: Bytes)
    ensures Decode(EncodeAll(NextCode, s)) == Each(PlusToSpace, s)
    ensures Decode(EncodeAll(NextCode, s)) == s <==> PLUS !in s
  {
    NextDecodes();
    DecodeAll(NextCode, PlusToSpace, s, []);
    assert EncodeAll(NextCode, s) + [] == EncodeAll(NextCode, s);
    if PLUS in s {
      var i :| 0 <= i < |s| && s[i] == PLUS;
      assert Each(PlusToSpace, s)[i] == SPACE;
    }
  }

  /** Nothing that would end or split the query is left in an encoded value. */
  lemma {:induction false} NextIsSafe(s: Bytes)
    ensures AMP !in EncodeAll(NextCode, s) && 0x3f !in EncodeAll(NextCode, s) && 0x23 !in EncodeAll(NextCode, s)
  {
    if s != [] {
      NextIsSafe(s[..|s| - 1]);
    }
  }

  predicate Plain(b: Byte) {
    b != PERCENT && b != AMP && b != 0x3f && b != 0x23
  }

  /** A value without any of the four characters is left as it is; every one of them makes it longer. */
  lemma {:induction false} NextLeavesPlain(s: Bytes)
    ensures |EncodeAll(NextCode, s)| >= |s|
    ensures |EncodeAll(NextCode, s)| == |s| <==> forall i :: 0 <= i < |s| ==> Plain(s[i])
    ensures (forall i :: 0 <= i < |s| ==> Plain(s[i])) ==> EncodeAll(NextCode, s) == s
  {
    if s != [] {
      var front, last := s[..|s| - 1], s[|s| - 1];
      NextLeavesPlain(front);
      assert forall i :: 0 <= i < |front| ==> s[i] == front[i];
      assert s == front + [last];
      assert |NextCode(last)| == 1 <==> Plain(last);
    }
  }

  /** An escape reads the same in capital and small letters. */
  lemma LetterCase(hi: Byte, lo: Byte, rest: Bytes)
    requires 0x41 <= hi <= 0x46 && 0x41 <= lo <= 0x46
    ensures ToDigit16(hi + 0x20) == ToDigit16(hi) == Some(hi - 0x41 + 10)
    ensures Decode([PERCENT, hi + 0x20, lo + 0x20] + rest) == Decode([PERCENT, hi, lo] + rest)
  {
    var small, capital := [PERCENT, hi + 0x20, lo + 0x20] + rest, [PERCENT, hi, lo] + rest;
    assert small[3..] == rest == capital[3..];
  }

  /** Decoding undoes the form serialiser on every byte string. */
  lemma FormRoundTrip(s: Bytes)
    ensures Decode(EncodeAll(FormCode, s)) == s
  {
    FormDecodes();
    DecodeAll(FormCode, Same, s, []);
    assert EncodeAll(FormCode, s) + [] == EncodeAll(FormCode, s);
  }

  // ---- form fields -----------------------------------------------------------

  function SplitOn(s: Bytes, sep: Byte): (r: seq<Bytes>)
    ensures r != []
  {
    if s == [] then [[]]
    else
      var r := SplitOn(s[1..], sep);
      if s[0] == sep then [[]] + r else [[s[0]] + r[0]] + r[1..]
  }

  /** The parts around the first `sep`. */
  function SplitOnce(s: Bytes, sep: Byte): Option<(Bytes, Bytes)> {
    if s == [] then None
    else if s[0] == sep then Some(([], s[1..]))
    else
      match SplitOnce(s[1..], sep)
      case Some((k, v)) => Some(([s[0]] + k, v))
      case None => None
  }

  function FindPair(pairs: seq<Bytes>, key: Bytes): Option<Bytes> {
    if pairs == [] then None
    else
      match SplitOnce(pairs[0], EQUALS)
      case Some((k, v)) => if k == key then Some(Decode(v)) else FindPair(pairs[1..], key)
      case None => FindPair(pairs[1..], key)
  }

  function FormField(body: Bytes, key: Bytes): Option<Bytes> {
    FindPair(SplitOn(body, AMP), key)
  }

  function Serialise(s: Bytes): Bytes {
    EncodeAll(FormCode, s)
  }

  type Field = (Bytes, Bytes)

  function SerialiseField(f: Field): Bytes {
    Serialise(f.0) + [EQUALS] + Serialise(f.1)
  }

  function SerialiseForm(fields: seq<Field>): Bytes {
    if fields == [] then []
    else if |fields| == 1 then SerialiseField(fields[0])
    else SerialiseField(fields[0]) + [AMP] + SerialiseForm(fields[1..])
  }

  /** The value of the first field named `key`. */
  function Lookup(fields: seq<Field>, key: Bytes): Option<Bytes> {
    if fields == [] then None
    else if fields[0].0 == key then Some(fields[0].1)
    else Lookup(fields[1..], key)
  }

  lemma {:induction false} SerialisedIsPlain(s: Bytes)
    ensures AMP !in Serialise(s) && EQUALS !in Serialise(s)
  {
    if s != [] {
      SerialisedIsPlain(s[..|s| - 1]);
    }
  }

  lemma {:induction false} SplitOnceAt(k: Bytes, v: Bytes)
    requires EQUALS !in k
    ensures SplitOnce(k + [EQUALS] + v, EQUALS) == Some((k, v))
  {
    var s := k + [EQUALS] + v;
    if k == [] {
      assert s[1..] == v;
    } else {
      assert s[1..] == k[1..] + [EQUALS] + v;
      assert k == [k[0]] + k[1..];
      SplitOnceAt(k[1..], v);
    }
  }

  lemma {:induction false} SplitLast(s: Bytes, sep: Byte)
    requires sep !in s
    ensures SplitOn(s, sep) == [s]
  {
    if s != [] {
      assert s == [s[0]] + s[1..];
      SplitLast(s[1..], sep);
    }
  }

  lemma {:induction false} SplitFirst(s: Bytes, rest: Bytes, sep: Byte)
    requires sep !in s
    ensures SplitOn(s + [sep] + rest, sep) == [s] + SplitOn(rest, sep)
  {
    var all := s + [sep] + rest;
    if s == [] {
      assert all[1..] == rest;
    } else {
      assert all[1..] == s[1..] + [sep] + rest;
      assert s == [s[0]] + s[1..];
      SplitFirst(s[1..], rest, sep);
    }
  }

  /** A key that needs no escaping is the name of a field exactly when it is its serialised name. */
  lemma NameIff(name: Bytes, key: Bytes)
    requires Serialise(key) == key
    ensures Serialise(name) == key <==> name == key
  {
    FormRoundTrip(name);
    FormRoundTrip(key);
  }

  lemma FindNext(f: Field, rest: seq<Bytes>, key: Bytes)
    requires Serialise(key) == key
    ensures FindPair([SerialiseField(f)] + rest, key) == if f.0 == key then Some(f.1) else FindPair(rest, key)
  {
    var (name, value) := f;
    var pairs := [SerialiseField(f)] + rest;
    assert pairs[1..] == rest;
    SerialisedIsPlain(name);
    SplitOnceAt(Serialise(name), Serialise(value));
    NameIff(name, key);
    FormRoundTrip(value);
  }

  lemma FieldIsPlain(f: Field)
    ensures AMP !in SerialiseField(f)
  {
    SerialisedIsPlain(f.0);
    SerialisedIsPlain(f.1);
  }

  /** A field of a serialised form is found, and its value read back, for every key that needs no escaping. */
  lemma {:induction false} FormFieldRoundTrip(fields: seq<Field>, key: Bytes)
    requires Serialise(key) == key
    ensures FormField(SerialiseForm(fields), key) == Lookup(fields, key)
  {
    if fields == [] {
      var none: Bytes := [];
      var pairs := [none];
      assert SerialiseForm(fields) == none && SplitOn(none, AMP) == pairs;
      assert SplitOnce(none, EQUALS) == None;
      assert pairs[1..] == [];
      assert FindPair(pairs, key) == FindPair(pairs[1..], key);
    } else {
      var first := SerialiseField(fields[0]);
      FieldIsPlain(fields[0]);
      if |fields| == 1 {
        SplitLast(first, AMP);
        FindNext(fields[0], [], key);
        assert [first] + [] == [first];
      } else {
        SplitFirst(first, SerialiseForm(fields[1..]), AMP);
        FindNext(fields[0], SplitOn(SerialiseForm(fields[1..]), AMP), key);
        FormFieldRoundTrip(fields[1..], key);
      }
    }
  }
}
