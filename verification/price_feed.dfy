/**
 The answer of a Chainlink price feed (user_worker/src/rates.rs: `word_to_u128`,
 `decode_latest_round_data`): five 32-byte words in hexadecimal, of which the second is the
 signed price and the fourth the time of the update.
 */
module PriceFeed {
  import opened Wrappers
  import opened Text

  const MAX_STALE_SECS := 86_400
  const U128_LIMIT := 0x1_0000_0000_0000_0000_0000_0000_0000_0000
  const WORD := 64
  const WORDS := 5

  predicate IsHex(c: char) {
    IsDigit(c) || 'a' <= c <= 'f' || 'A' <= c <= 'F'
  }

  predicate AllHex(s: string) {
    forall i :: 0 <= i < |s| ==> IsHex(s[i])
  }

  function HexDigit(c: char): (n: nat)
    requires IsHex(c)
    ensures n < 16
  {
    if IsDigit(c) then c as int - '0' as int
    else if 'a' <= c <= 'f' then c as int - 'a' as int + 10
    else c as int - 'A' as int + 10
  }

  /** The number a hexadecimal string stands for. */
  function HexValue(s: string): nat
    requires AllHex(s)
  {
    if s == "" then 0 else 16 * HexValue(s[..|s| - 1]) + HexDigit(s[|s| - 1])
  }

  function Pow16(n: nat): nat {
    if n == 0 then 1 else 16 * Pow16(n - 1)
  }

  predicate AllZero(s: string) {
    forall i :: 0 <= i < |s| ==> s[i] == '0'
  }

  /** Rust's `u128::from_str_radix` with radix 16: digits after an optional plus sign. */
  function ParseHex(s: string): Option<nat> {
    var digits := if s != "" && s[0] == '+' then s[1..] else s;
    if digits != "" && AllHex(digits) && HexValue(digits) < U128_LIMIT then Some(HexValue(digits)) else None
  }

  function WordToU128(word: string): Result<nat>
    requires |word| == WORD
  {
    var (high, low) := (word[..32], word[32..]);
    if !AllZero(high) then Err("word exceeds u128")
    else
      match ParseHex(low)
      case Some(n) => Ok(n)
      case None => Err("bad hex word")
  }

  function WordAt(hex: string, i: nat): (w: string)
    requires |hex| == WORDS * WORD && i < WORDS
    ensures |w| == WORD
  {
    hex[i * WORD..(i + 1) * WORD]
  }

  function DecodeLatestRound(result: string, now: nat): Result<nat> {
    if !StartsWith(result, "0x") then Err("result not 0x-prefixed") else
    var hex := result[2..];
    if |hex| != WORDS * WORD || !AllHex(hex) then Err("result is not 0x + 320 hex chars") else
    var answerWord := WordAt(hex, 1);
    if HexDigit(answerWord[0]) >= 8 then Err("chainlink answer is negative") else
    var answer :- WordToU128(answerWord);
    if answer == 0 then Err("chainlink answer is zero") else
    var updatedAt :- WordToU128(WordAt(hex, 3));
    if updatedAt >= U64_LIMIT then Err("updatedAt exceeds u64") else
    if now - updatedAt > MAX_STALE_SECS then Err("chainlink price is stale") else
    Ok(answer)
  }

  // ---- values ----------------------------------------------------------------

  lemma {:induction false} HexBound(s: string)
    requires AllHex(s)
    ensures HexValue(s) < Pow16(|s|)
  {
    if s != "" {
      HexBound(s[..|s| - 1]);
    }
  }

  lemma Shift(v: nat, p: nat)
    ensures v * (16 * p) == 16 * (v * p)
  {
  }

  lemma Multiples(v: nat, p: nat)
    ensures v == 0 ==> v * p == 0
    ensures v >= 1 ==> v * p >= p
    ensures v >= 8 ==> v * p >= 8 * p
    ensures v <= 7 ==> v * p <= 7 * p
  {
  }

  lemma HexSnoc(s: string, c: char)
    requires AllHex(s) && IsHex(c)
    ensures AllHex(s + [c]) && HexValue(s + [c]) == 16 * HexValue(s) + HexDigit(c)
  {
    assert (s + [c])[..|s|] == s;
  }

  lemma {:induction false} HexAppend(a: string, b: string)
    requires AllHex(a) && AllHex(b)
    ensures AllHex(a + b) && HexValue(a + b) == HexValue(a) * Pow16(|b|) + HexValue(b)
  {
    if b == "" {
      assert a + b == a;
    } else {
      var front, c := b[..|b| - 1], b[|b| - 1];
      HexAppend(a, front);
      HexSnoc(a + front, c);
      HexSnoc(front, c);
      assert b == front + [c] && a + b == (a + front) + [c];
      Shift(HexValue(a), Pow16(|front|));
    }
  }

  lemma {:induction false} ZeroIff(s: string)
    requires AllHex(s)
    ensures AllZero(s) <==> HexValue(s) == 0
  {
    if s != "" {
      ZeroIff(s[..|s| - 1]);
      assert s == s[..|s| - 1] + [s[|s| - 1]];
    }
  }

  lemma Pow16Adds(a: nat, b: nat)
    ensures Pow16(a + b) == Pow16(a) * Pow16(b)
  {
    if b == 0 {
      assert a + b == a;
    } else {
      Pow16Adds(a, b - 1);
      Shift(Pow16(a), Pow16(b - 1));
    }
  }

  lemma Pow16Limits()
    ensures Pow16(16) == U64_LIMIT && Pow16(32) == U128_LIMIT
  {
    Pow16Adds(8, 8);
    Pow16Adds(16, 16);
  }

  /** A word is its upper half times 2^128 plus its lower half. */
  lemma Halves(word: string)
    requires |word| == WORD && AllHex(word)
    ensures HexValue(word) == HexValue(word[..32]) * U128_LIMIT + HexValue(word[32..])
    ensures HexValue(word[32..]) < U128_LIMIT
  {
    assert word == word[..32] + word[32..];
    HexAppend(word[..32], word[32..]);
    HexBound(word[32..]);
    Pow16Limits();
  }

  /** A word is accepted exactly when its value fits 128 bits. */
  lemma WordIff(word: string)
    requires |word| == WORD && AllHex(word)
    ensures HexValue(word) < U128_LIMIT ==> WordToU128(word) == Ok(HexValue(word))
    ensures HexValue(word) >= U128_LIMIT ==> WordToU128(word).Err?
  {
    Halves(word);
    ZeroIff(word[..32]);
    assert IsHex(word[32..][0]);
  }

  /** The sign is the top bit: the first digit is 8 or more exactly when the value is at least half the range. */
  lemma SignIff(word: string)
    requires word != "" && AllHex(word)
    ensures HexDigit(word[0]) >= 8 <==> HexValue(word) >= 8 * Pow16(|word| - 1)
  {
    var first, rest := word[..1], word[1..];
    assert word == first + rest;
    assert first[..0] == "";
    HexAppend(first, rest);
    HexBound(rest);
    Multiples(HexDigit(word[0]), Pow16(|rest|));
  }

  ghost predicate FreshPositive(hex: string, now: nat)
    requires |hex| == WORDS * WORD && AllHex(hex)
  {
    var answer, updatedAt := HexValue(WordAt(hex, 1)), HexValue(WordAt(hex, 3));
    0 < answer < U128_LIMIT && updatedAt < U64_LIMIT && now - updatedAt <= MAX_STALE_SECS
  }

  /** Accepted are exactly the well-formed answers with a positive price that fits and a fresh update; the price is the second word. */
  lemma DecodeIff(result: string, now: nat, price: nat)
    ensures DecodeLatestRound(result, now) == Ok(price)
       <==> (&& StartsWith(result, "0x") && |result| == 2 + WORDS * WORD && AllHex(result[2..])
             && FreshPositive(result[2..], now)
             && price == HexValue(WordAt(result[2..], 1)))
  {
    if StartsWith(result, "0x") && |result| == 2 + WORDS * WORD && AllHex(result[2..]) {
      var hex := result[2..];
      WordIff(WordAt(hex, 1));
      WordIff(WordAt(hex, 3));
      SignIff(WordAt(hex, 1));
      SignRange();
    }
  }

  lemma SignRange()
    ensures U128_LIMIT <= 8 * Pow16(WORD - 1)
  {
    Pow16Limits();
    Pow16Grows(32, WORD - 1);
  }

  lemma {:induction false} Pow16Grows(a: nat, b: nat)
    requires a <= b
    ensures Pow16(a) <= Pow16(b)
  {
    if a < b {
      Pow16Grows(a, b - 1);
    }
  }

  /** Capital and small letters are the same digits. */
  lemma LetterCase(c: char)
    requires 'A' <= c <= 'F'
    ensures HexDigit(c) == HexDigit(c - 'A' + 'a') == 10 + (c as int - 'A' as int)
  {
  }

  // ---- printing --------------------------------------------------------------

  function PrintHexDigit(n: nat): (c: char)
    requires n < 16
    ensures IsHex(c) && HexDigit(c) == n
  {
    if n < 10 then '0' + n as char else 'a' + (n - 10) as char
  }

  /** `n` in `width` hexadecimal digits. */
  function PrintHex(n: nat, width: nat): (s: string)
    requires n < Pow16(width)
    ensures |s| == width && AllHex(s) && HexValue(s) == n
  {
    if width == 0 then ""
    else
      var front := PrintHex(n / 16, width - 1);
      var s := front + [PrintHexDigit(n % 16)];
      assert s[..|s| - 1] == front;
      s
  }

  function PrintRound(words: seq<nat>): string
    requires |words| == WORDS && forall i :: 0 <= i < WORDS ==> words[i] < Pow16(WORD)
  {
    "0x" + (PrintHex(words[0], WORD) + PrintHex(words[1], WORD) + PrintHex(words[2], WORD)
            + PrintHex(words[3], WORD) + PrintHex(words[4], WORD))
  }

  /** A printed round is read back: its price, exactly when positive as a signed word, in range and fresh. */
  lemma PrintedRound(words: seq<nat>, now: nat)
    requires |words| == WORDS && forall i :: 0 <= i < WORDS ==> words[i] < Pow16(WORD)
    ensures DecodeLatestRound(PrintRound(words), now) == Ok(words[1])
       <==> 0 < words[1] < U128_LIMIT && words[3] < U64_LIMIT && now - words[3] <= MAX_STALE_SECS
  {
    var hex := PrintHex(words[0], WORD) + PrintHex(words[1], WORD) + PrintHex(words[2], WORD)
               + PrintHex(words[3], WORD) + PrintHex(words[4], WORD);
    FiveWords(PrintHex(words[0], WORD), PrintHex(words[1], WORD), PrintHex(words[2], WORD),
              PrintHex(words[3], WORD), PrintHex(words[4], WORD));
    Prefixed(hex);
    DecodeIff("0x" + hex, now, words[1]);
  }

  lemma Prefixed(hex: string)
    ensures StartsWith("0x" + hex, "0x") && ("0x" + hex)[2..] == hex
  {
  }

  lemma FiveWords(a: string, b: string, c: string, d: string, e: string)
    requires |a| == |b| == |c| == |d| == |e| == WORD
    requires AllHex(a) && AllHex(b) && AllHex(c) && AllHex(d) && AllHex(e)
    ensures var hex := a + b + c + d + e; |hex| == WORDS * WORD && AllHex(hex) && WordAt(hex, 1) == b && WordAt(hex, 3) == d
  {
  }
}
