/**
 Sign-In with Ethereum messages (user_worker/src/siwe.rs, `parse_siwe`; the message format
 of EIP-4361, and the message the login page prints).

 The parser walks a cursor over the lines of the message. It is proved to accept exactly
 the printings of well-formed records, and to return the record that was printed.
 */
module Siwe {
  import opened Text
  import opened Wrappers

  datatype SiweMessage = SiweMessage(
    domain: string,
    address: string,
    statement: Option<string>,
    uri: string,
    version: string,
    chainId: nat,
    nonce: string,
    issuedAt: string,
    expirationTime: Option<string>)

  const PREAMBLE_SUFFIX := " wants you to sign in" + " with your Ethereum" + " account:"

  // ---- lines ---------------------------------------------------------------

  /** Rust's `split('\n')`: always at least one piece. */
  function Split(s: string): (lines: seq<string>)
    ensures lines != [] && forall i :: 0 <= i < |lines| ==> '\n' !in lines[i]
  {
    if s == "" then [""]
    else
      var rest := Split(s[1..]);
      if s[0] == '\n' then [""] + rest else [[s[0]] + rest[0]] + rest[1..]
  }

  function StripCr(l: string): string {
    if l != "" && l[|l| - 1] == '\r' then l[..|l| - 1] else l
  }

  function Lines(msg: string): (lines: seq<string>)
    ensures forall i :: 0 <= i < |lines| ==> '\n' !in lines[i]
  {
    var pieces := Split(msg);
    seq(|pieces|, i requires 0 <= i < |pieces| => StripCr(pieces[i]))
  }

  function Join(lines: seq<string>): string {
    if lines == [] then "" else if |lines| == 1 then lines[0] else lines[0] + "\n" + Join(lines[1..])
  }

  predicate NewlineFree(lines: seq<string>) {
    forall i :: 0 <= i < |lines| ==> '\n' !in lines[i]
  }

  lemma {:induction false} SplitLine(l: string, s: string)
    requires '\n' !in l
    ensures Split(l) == [l]
    ensures Split(l + "\n" + s) == [l] + Split(s)
  {
    if l == "" {
      assert ("\n" + s)[1..] == s && l + "\n" + s == "\n" + s;
    } else {
      SplitLine(l[1..], s);
      assert (l + "\n" + s)[1..] == l[1..] + "\n" + s;
      assert [l[0]] + l[1..] == l;
    }
  }

  lemma {:induction false} SplitJoin(lines: seq<string>)
    requires lines != [] && NewlineFree(lines)
    ensures Split(Join(lines)) == lines
  {
    if |lines| == 1 {
      SplitLine(lines[0], "");
    } else {
      SplitJoin(lines[1..]);
      SplitLine(lines[0], Join(lines[1..]));
    }
  }

  lemma {:induction false} JoinSplit(s: string)
    ensures Join(Split(s)) == s
  {
    if s != "" {
      var rest := Split(s[1..]);
      JoinSplit(s[1..]);
      if s[0] == '\n' {
        assert Split(s)[1..] == rest;
        assert s == "" + "\n" + s[1..];
      } else {
        assert Split(s)[1..] == rest[1..];
        assert s == [s[0]] + s[1..];
        if |rest| > 1 {
          assert Join(Split(s)) == [s[0]] + rest[0] + "\n" + Join(rest[1..]);
        }
      }
    }
  }

  // ---- what the parser computes, stage by stage ----------------------------

  datatype Head = Head(domain: string, address: string)

  datatype Fields = Fields(uri: string, version: string, chainId: nat, nonce: string, issuedAt: string)

  function TakeLine(rest: seq<string>, what: string): Result<(string, seq<string>)> {
    if rest == [] then Err(what) else Ok((rest[0], rest[1..]))
  }

  function TakeField(rest: seq<string>, name: string, prefix: string): Result<(string, seq<string>)> {
    if rest != [] && StartsWith(rest[0], prefix) then Ok((rest[0][|prefix|..], rest[1..])) else Err(name)
  }

  function ParseHead(lines: seq<string>): Result<(Head, seq<string>)> {
    var (first, rest1) :- TakeLine(lines, "missing preamble");
    :- Need(EndsWith(first, PREAMBLE_SUFFIX), "bad preamble");
    var domain := first[..|first| - |PREAMBLE_SUFFIX|];
    :- Need(domain != "", "empty domain");
    var (address, rest2) :- TakeLine(rest1, "missing address");
    :- Need(address != "", "empty address");
    var (blank, rest3) :- TakeLine(rest2, "missing blank line");
    :- Need(blank == "", "expected blank line after address");
    Ok((Head(domain, address), rest3))
  }

  /** The statement block: lines up to a blank one, or nothing if the fields follow at once. */
  function ParseStatement(rest: seq<string>, acc: seq<string>): Result<(seq<string>, seq<string>)> {
    if rest == [] then Err("unterminated statement")
    else if acc == [] && StartsWith(rest[0], "URI: ") then Ok((acc, rest))
    else if rest[0] == "" then Ok((acc, rest[1..]))
    else ParseStatement(rest[1..], acc + [rest[0]])
  }

  function ParseFields(rest: seq<string>): Result<(Fields, seq<string>)> {
    var (uri, rest1) :- TakeField(rest, "expected URI", "URI: ");
    var (version, rest2) :- TakeField(rest1, "expected Version", "Version: ");
    var (chainText, rest3) :- TakeField(rest2, "expected Chain ID", "Chain ID: ");
    :- Need(ParseU64(chainText).Some?, "bad chain id");
    var (nonce, rest4) :- TakeField(rest3, "expected Nonce", "Nonce: ");
    var (issuedAt, rest5) :- TakeField(rest4, "expected Issued At", "Issued At: ");
    Ok((Fields(uri, version, ParseU64(chainText).value, nonce, issuedAt), rest5))
  }

  function ParseExpiration(rest: seq<string>): (Option<string>, seq<string>) {
    if rest != [] && StartsWith(rest[0], "Expiration Time: ") then
      (Some(rest[0][|"Expiration Time: "|..]), rest[1..])
    else (None, rest)
  }

  function SkipItems(rest: seq<string>): (r: seq<string>)
    ensures |r| <= |rest|
  {
    if rest != [] && StartsWith(rest[0], "- ") then SkipItems(rest[1..]) else rest
  }

  predicate AllBlank(rest: seq<string>) {
    forall i :: 0 <= i < |rest| ==> rest[i] == ""
  }

  /** The trailing lines the parser puts up with. */
  predicate Tolerated(rest: seq<string>)
    decreases |rest|
  {
    if rest == [] then true
    else if StartsWith(rest[0], "Not Before: ") || StartsWith(rest[0], "Request ID: ") then Tolerated(rest[1..])
    else if rest[0] == "Resources:" then Tolerated(SkipItems(rest[1..]))
    else AllBlank(rest)
  }

  // ---- which trailing lines are tolerated --------------------------------------

  /** A resource item may come after `l`. */
  predicate OpensItems(l: string) {
    l == "Resources:" || StartsWith(l, "- ")
  }

  /** Line `i` is one the format allows after the required fields; `open` says whether an item may come first. */
  predicate Extra(rest: seq<string>, i: nat, open: bool)
    requires i < |rest|
  {
    || StartsWith(rest[i], "Not Before: ") || StartsWith(rest[i], "Request ID: ") || rest[i] == "Resources:"
    || (StartsWith(rest[i], "- ") && if i == 0 then open else OpensItems(rest[i - 1]))
  }

  /** `n` such lines, then only blank ones. */
  ghost predicate ExtrasThenBlank(rest: seq<string>, n: nat, open: bool) {
    && n <= |rest|
    && (forall i :: 0 <= i < n ==> Extra(rest, i, open))
    && (forall i :: n <= i < |rest| ==> rest[i] == "")
  }

  ghost predicate Trails(rest: seq<string>, open: bool) {
    exists n :: ExtrasThenBlank(rest, n, open)
  }

  /** The walk stops well exactly on extra lines, each item below "Resources:" or another item, and blank lines after them. */
  lemma {:induction false} ToleratedIff(rest: seq<string>)
    ensures Tolerated(rest) <==> Trails(rest, false)
    decreases |rest|, 0
  {
    if rest == [] {
      assert ExtrasThenBlank(rest, 0, false);
    } else {
      var l := rest[0];
      if l == "" {
        BlankTrails(rest);
        return;
      }
      TrailsFrom(rest, false);
      if StartsWith(l, "Not Before: ") || StartsWith(l, "Request ID: ") {
        assert l[0] == "Not Before: "[0] || l[0] == "Request ID: "[0];
        ToleratedIff(rest[1..]);
      } else if l == "Resources:" {
        ItemsIff(rest[1..]);
      }
    }
  }

  lemma {:induction false} ItemsIff(rest: seq<string>)
    ensures Tolerated(SkipItems(rest)) <==> Trails(rest, true)
    decreases |rest|, 1
  {
    if rest != [] && StartsWith(rest[0], "- ") {
      TrailsFrom(rest, true);
      ItemsIff(rest[1..]);
    } else {
      ToleratedIff(rest);
      NoItemFirst(rest);
    }
  }

  /** Without an item in front it does not matter whether one was allowed. */
  lemma NoItemFirst(rest: seq<string>)
    requires rest == [] || !StartsWith(rest[0], "- ")
    ensures Trails(rest, true) <==> Trails(rest, false)
  {
    forall i | 0 <= i < |rest| ensures Extra(rest, i, true) == Extra(rest, i, false) {
    }
    forall n: nat ensures ExtrasThenBlank(rest, n, true) == ExtrasThenBlank(rest, n, false) {
    }
  }

  lemma BlankTrails(rest: seq<string>)
    requires rest != [] && rest[0] == ""
    ensures Trails(rest, false) <==> AllBlank(rest)
  {
    assert !Extra(rest, 0, false);
    forall n: nat | ExtrasThenBlank(rest, n, false) ensures n == 0 {
    }
    if AllBlank(rest) {
      assert ExtrasThenBlank(rest, 0, false);
    }
  }

  /** The first line apart from the others. */
  lemma TrailsFrom(rest: seq<string>, open: bool)
    requires rest != [] && rest[0] != ""
    ensures Trails(rest, open) <==> Extra(rest, 0, open) && Trails(rest[1..], OpensItems(rest[0]))
  {
    var tail, inside := rest[1..], OpensItems(rest[0]);
    forall i | 0 <= i < |tail| ensures Extra(tail, i, inside) == Extra(rest, i + 1, open) {
    }
    forall n: nat | ExtrasThenBlank(rest, n, open) ensures Extra(rest, 0, open) && Trails(tail, inside) {
      assert n > 0;
      assert ExtrasThenBlank(tail, n - 1, inside);
    }
    forall n: nat | ExtrasThenBlank(tail, n, inside) && Extra(rest, 0, open) ensures Trails(rest, open) {
      forall i | 0 <= i < n + 1 ensures Extra(rest, i, open) {
        assert i > 0 ==> Extra(tail, i - 1, inside);
      }
      assert ExtrasThenBlank(rest, n + 1, open);
    }
  }

  function ParseLines(lines: seq<string>): Result<SiweMessage> {
    var (head, rest1) :- ParseHead(lines);
    var (statement, rest2) :- ParseStatement(rest1, []);
    var (f, rest3) :- ParseFields(rest2);
    var (expiration, rest4) := ParseExpiration(rest3);
    :- Need(Tolerated(rest4), "unexpected trailing line");
    Ok(SiweMessage(head.domain, head.address, if statement != [] then Some(Join(statement)) else None,
                   f.uri, f.version, f.chainId, f.nonce, f.issuedAt, expiration))
  }

  // ---- the printer ---------------------------------------------------------

  /** What a printing may choose: a second blank line when there is no statement, the chain id's text,
      and trailing lines. */
  datatype Layout = Layout(secondBlank: bool, chainText: string, trailing: seq<string>)

  predicate NonBlank(lines: seq<string>) {
    forall i :: 0 <= i < |lines| ==> lines[i] != ""
  }

  /** A statement has no blank line and does not look like the first field. */
  predicate StatementOk(lines: seq<string>) {
    lines != [] && NonBlank(lines) && !StartsWith(lines[0], "URI: ")
  }

  predicate WellFormed(m: SiweMessage, y: Layout) {
    && m.domain != "" && m.address != ""
    && (m.statement.Some? ==> StatementOk(Split(m.statement.value)))
    && ParseU64(y.chainText) == Some(m.chainId)
    && Tolerated(y.trailing)
  }

  function PrintStatement(statement: Option<string>, secondBlank: bool): seq<string> {
    if statement.Some? then Split(statement.value) + [""] else if secondBlank then [""] else []
  }

  function PrintFields(m: SiweMessage, chainText: string): seq<string> {
    ["URI: " + m.uri, "Version: " + m.version, "Chain ID: " + chainText, "Nonce: " + m.nonce, "Issued At: " + m.issuedAt]
  }

  function PrintExpiration(e: Option<string>): seq<string> {
    if e.Some? then ["Expiration Time: " + e.value] else []
  }

  function PrintLines(m: SiweMessage, y: Layout): seq<string> {
    [m.domain + PREAMBLE_SUFFIX, m.address, ""]
    + (PrintStatement(m.statement, y.secondBlank)
       + (PrintFields(m, y.chainText) + (PrintExpiration(m.expirationTime) + y.trailing)))
  }

  // ---- each stage reads what was printed -----------------------------------

  lemma HeadIff(lines: seq<string>, h: Head, rest: seq<string>)
    ensures ParseHead(lines) == Ok((h, rest)) <==>
            h.domain != "" && h.address != "" && lines == [h.domain + PREAMBLE_SUFFIX, h.address, ""] + rest
  {
    if |lines| >= 3 {
      assert lines == [lines[0], lines[1], lines[2]] + lines[1..][1..][1..];
      var n := |lines[0]| - |PREAMBLE_SUFFIX|;
      if EndsWith(lines[0], PREAMBLE_SUFFIX) {
        assert lines[0] == lines[0][..n] + PREAMBLE_SUFFIX;
      }
    }
    if lines == [h.domain + PREAMBLE_SUFFIX, h.address, ""] + rest {
      assert lines[1..][1..][1..] == rest;
      assert lines[0] == h.domain + PREAMBLE_SUFFIX;
      assert lines[0][..|h.domain|] == h.domain && lines[0][|h.domain|..] == PREAMBLE_SUFFIX;
    }
  }

  lemma {:induction false} StatementTail(rest: seq<string>, acc: seq<string>, lines: seq<string>, rest': seq<string>)
    requires acc != []
    ensures ParseStatement(rest, acc) == Ok((acc + lines, rest')) <==> NonBlank(lines) && rest == lines + [""] + rest'
    decreases |rest|
  {
    if rest == [] {
    } else if rest[0] == "" {
      assert acc + lines == acc <==> lines == [];
      assert lines == [] ==> ([""] + rest' == lines + [""] + rest');
      assert rest == [rest[0]] + rest[1..];
      if rest == lines + [""] + rest' && lines != [] {
        assert rest[0] == lines[0];
      }
    } else if lines == [] {
      assert ([] + [""] + rest')[0] == "";
      StatementGrows(rest[1..], acc + [rest[0]]);
    } else {
      StatementTail(rest[1..], acc + [rest[0]], lines[1..], rest');
      if lines[0] == rest[0] {
        assert acc + lines == acc + [rest[0]] + lines[1..];
        assert lines + [""] + rest' == [lines[0]] + (lines[1..] + [""] + rest');
        assert rest == [rest[0]] + rest[1..];
        assert NonBlank(lines) <==> NonBlank(lines[1..]);
      } else {
        StatementGrows(rest[1..], acc + [rest[0]]);
        assert (acc + lines)[|acc|] == lines[0];
        assert (lines + [""] + rest')[0] == lines[0];
      }
    }
  }

  lemma {:induction false} StatementGrows(rest: seq<string>, acc: seq<string>)
    requires acc != []
    ensures ParseStatement(rest, acc).Ok? ==>
              |acc| <= |ParseStatement(rest, acc).value.0| && ParseStatement(rest, acc).value.0[..|acc|] == acc
    decreases |rest|
  {
    if rest != [] && rest[0] != "" {
      StatementGrows(rest[1..], acc + [rest[0]]);
    }
  }

  /** The statement stage, from the start of the block. */
  lemma StatementIff(rest: seq<string>, lines: seq<string>, rest': seq<string>)
    ensures ParseStatement(rest, []) == Ok((lines, rest')) <==>
            || (lines == [] && rest == rest' && rest != [] && StartsWith(rest[0], "URI: "))
            || (lines == [] && rest == [""] + rest')
            || (StatementOk(lines) && rest == lines + [""] + rest')
  {
    if rest != [] {
      assert rest == [rest[0]] + rest[1..];
      if rest[0] != "" && !StartsWith(rest[0], "URI: ") {
        assert [] + [rest[0]] == [rest[0]];
        StatementGrows(rest[1..], [rest[0]]);
        assert ParseStatement(rest, []) == Ok((lines, rest')) ==> lines[..1] == [rest[0]];
        if lines != [] {
          StatementTail(rest[1..], [rest[0]], lines[1..], rest');
          assert lines == [lines[0]] + lines[1..];
          assert lines + [""] + rest' == [lines[0]] + (lines[1..] + [""] + rest');
          assert NonBlank(lines) <==> lines[0] != "" && NonBlank(lines[1..]);
          assert lines[..1] == [lines[0]] && (lines + [""] + rest')[0] == lines[0];
        }
      } else if lines != [] {
        assert (lines + [""] + rest')[0] == lines[0];
      }
    }
  }

  lemma FieldIff(rest: seq<string>, name: string, prefix: string, v: string, rest': seq<string>)
    ensures TakeField(rest, name, prefix) == Ok((v, rest')) <==> rest == [prefix + v] + rest'
  {
    if rest != [] {
      assert rest == [rest[0]] + rest[1..];
      if StartsWith(rest[0], prefix) {
        assert rest[0] == prefix + rest[0][|prefix|..];
      }
    }
  }

  /** The five fields, in order. */
  lemma FieldsParse(rest: seq<string>, f: Fields, rest': seq<string>) returns (chainText: string)
    requires ParseFields(rest) == Ok((f, rest'))
    ensures ParseU64(chainText) == Some(f.chainId)
    ensures rest == ["URI: " + f.uri, "Version: " + f.version, "Chain ID: " + chainText, "Nonce: " + f.nonce,
                     "Issued At: " + f.issuedAt] + rest'
  {
    var (uri, rest1) := TakeField(rest, "expected URI", "URI: ").value;
    FieldIff(rest, "expected URI", "URI: ", uri, rest1);
    var (version, rest2) := TakeField(rest1, "expected Version", "Version: ").value;
    FieldIff(rest1, "expected Version", "Version: ", version, rest2);
    var (text, rest3) := TakeField(rest2, "expected Chain ID", "Chain ID: ").value;
    FieldIff(rest2, "expected Chain ID", "Chain ID: ", text, rest3);
    var (nonce, rest4) := TakeField(rest3, "expected Nonce", "Nonce: ").value;
    FieldIff(rest3, "expected Nonce", "Nonce: ", nonce, rest4);
    var (issuedAt, rest5) := TakeField(rest4, "expected Issued At", "Issued At: ").value;
    FieldIff(rest4, "expected Issued At", "Issued At: ", issuedAt, rest5);
    chainText := text;
  }

  lemma FieldsPrinted(m: SiweMessage, chainText: string, rest': seq<string>)
    requires ParseU64(chainText) == Some(m.chainId)
    ensures ParseFields(PrintFields(m, chainText) + rest')
         == Ok((Fields(m.uri, m.version, m.chainId, m.nonce, m.issuedAt), rest'))
  {
    var rest4 := ["Issued At: " + m.issuedAt] + rest';
    var rest3 := ["Nonce: " + m.nonce] + rest4;
    var rest2 := ["Chain ID: " + chainText] + rest3;
    var rest1 := ["Version: " + m.version] + rest2;
    assert PrintFields(m, chainText) + rest' == ["URI: " + m.uri] + rest1;
    FieldIff(["URI: " + m.uri] + rest1, "expected URI", "URI: ", m.uri, rest1);
    FieldIff(rest1, "expected Version", "Version: ", m.version, rest2);
    FieldIff(rest2, "expected Chain ID", "Chain ID: ", chainText, rest3);
    FieldIff(rest3, "expected Nonce", "Nonce: ", m.nonce, rest4);
    FieldIff(rest4, "expected Issued At", "Issued At: ", m.issuedAt, rest');
  }

  lemma ExpirationIff(rest: seq<string>, e: Option<string>, rest': seq<string>)
    requires Tolerated(rest')
    ensures ParseExpiration(rest) == (e, rest') <==> rest == PrintExpiration(e) + rest'
  {
    var prefix := "Expiration Time: ";
    if rest != [] {
      assert rest == [rest[0]] + rest[1..];
      if StartsWith(rest[0], prefix) {
        assert rest[0] == prefix + rest[0][|prefix|..];
        assert rest[0][0] == 'E' && "Not Before: "[0] == 'N' && "Request ID: "[0] == 'R' && "Resources:"[0] == 'R';
        assert !Tolerated(rest);
      }
    }
    if e.Some? && rest == PrintExpiration(e) + rest' {
      assert rest[0][|prefix|..] == e.value;
    }
    assert PrintExpiration(None) + rest' == rest';
  }

  // ---- the theorem ---------------------------------------------------------

  lemma PrintedParses(m: SiweMessage, y: Layout)
    requires WellFormed(m, y)
    ensures ParseLines(PrintLines(m, y)) == Ok(m)
  {
    var rest3 := PrintExpiration(m.expirationTime) + y.trailing;
    var rest2 := PrintFields(m, y.chainText) + rest3;
    var rest1 := PrintStatement(m.statement, y.secondBlank) + rest2;
    HeadIff(PrintLines(m, y), Head(m.domain, m.address), rest1);
    var lines := if m.statement.Some? then Split(m.statement.value) else [];
    assert StartsWith(rest2[0], "URI: ");
    StatementIff(rest1, lines, rest2);
    FieldsPrinted(m, y.chainText, rest3);
    ExpirationIff(rest3, m.expirationTime, y.trailing);
    if m.statement.Some? {
      JoinSplit(m.statement.value);
    } else if !y.secondBlank {
      assert rest1 == rest2;
    }
  }

  lemma ParsedIsPrinted(lines: seq<string>, m: SiweMessage) returns (y: Layout)
    requires NewlineFree(lines) && ParseLines(lines) == Ok(m)
    ensures WellFormed(m, y) && lines == PrintLines(m, y)
  {
    var (head, rest1) := ParseHead(lines).value;
    HeadIff(lines, head, rest1);
    var (statement, rest2) := ParseStatement(rest1, []).value;
    StatementIff(rest1, statement, rest2);
    var (f, rest3) := ParseFields(rest2).value;
    var chainText := FieldsParse(rest2, f, rest3);
    var (expiration, rest4) := ParseExpiration(rest3);
    ExpirationIff(rest3, expiration, rest4);
    y := Layout(rest1 == [""] + rest2, chainText, rest4);
    assert rest2[0] != "";
    PrintedStatement(lines, rest1, statement, rest2);
    assert rest2 == PrintFields(m, chainText) + (PrintExpiration(m.expirationTime) + y.trailing);
  }

  /** The statement lines of a parsed message, printed again. */
  lemma PrintedStatement(lines: seq<string>, rest1: seq<string>, statement: seq<string>, rest2: seq<string>)
    requires NewlineFree(lines) && |lines| >= 3 && rest1 == lines[3..] && rest2 != [] && rest2[0] != ""
    requires ParseStatement(rest1, []) == Ok((statement, rest2))
    ensures var s := if statement != [] then Some(Join(statement)) else None;
            && rest1 == PrintStatement(s, rest1 == [""] + rest2) + rest2
            && (s.Some? ==> StatementOk(Split(s.value)))
  {
    StatementIff(rest1, statement, rest2);
    if statement != [] {
      forall i | 0 <= i < |statement| ensures '\n' !in statement[i] {
        assert statement[i] == rest1[i] == lines[3 + i];
      }
      SplitJoin(statement);
    } else {
      assert [] + rest2 == rest2;
    }
  }

  /** The parser accepts exactly the printings of well-formed records, and returns the record. */
  lemma ParseIffPrinted(lines: seq<string>, m: SiweMessage)
    requires NewlineFree(lines)
    ensures ParseLines(lines) == Ok(m) <==> exists y :: WellFormed(m, y) && lines == PrintLines(m, y)
  {
    if ParseLines(lines) == Ok(m) {
      var y := ParsedIsPrinted(lines, m);
    }
    forall y | WellFormed(m, y) && lines == PrintLines(m, y) ensures ParseLines(lines) == Ok(m) {
      PrintedParses(m, y);
    }
  }

  // ---- the parser ----------------------------------------------------------

  /** The cursor over the lines. */
  class Cursor {
    const lines: seq<string>
    var i: nat

    ghost predicate Valid()
      reads this
    {
      i <= |lines|
    }

    ghost function Rest(): seq<string>
      requires Valid()
      reads this
    {
      lines[i..]
    }

    constructor (lines: seq<string>)
      ensures Valid() && Rest() == lines
    {
      this.lines := lines;
      i := 0;
    }

    method Next(what: string) returns (r: Result<string>)
      requires Valid()
      modifies this
      ensures Valid()
      ensures if old(Rest()) == [] then r == Err(what) && Rest() == old(Rest())
              else r == Ok(old(Rest())[0]) && Rest() == old(Rest())[1..]
    {
      if i >= |lines| {
        return Err(what);
      }
      r := Ok(lines[i]);
      i := i + 1;
    }

    method Peek() returns (r: Option<string>)
      requires Valid()
      ensures r == if Rest() == [] then None else Some(Rest()[0])
    {
      r := if i < |lines| then Some(lines[i]) else None;
    }

    method Skip()
      requires Valid() && Rest() != []
      modifies this
      ensures Valid() && Rest() == old(Rest())[1..]
    {
      i := i + 1;
    }

    method Field(name: string, prefix: string) returns (r: Result<string>)
      requires Valid()
      modifies this
      ensures Valid()
      ensures match TakeField(old(Rest()), name, prefix)
              case Ok((v, rest)) => r == Ok(v) && Rest() == rest
              case Err(e) => r == Err(e)
    {
      var line :- Next(name);
      if !StartsWith(line, prefix) {
        return Err(name);
      }
      r := Ok(line[|prefix|..]);
    }

    method ReadHead() returns (r: Result<Head>)
      requires Valid()
      modifies this
      ensures Valid()
      ensures match ParseHead(old(Rest()))
              case Ok((h, rest)) => r == Ok(h) && Rest() == rest
              case Err(e) => r == Err(e)
    {
      var first :- Next("missing preamble");
      if !EndsWith(first, PREAMBLE_SUFFIX) {
        return Err("bad preamble");
      }
      var domain := first[..|first| - |PREAMBLE_SUFFIX|];
      if domain == "" {
        return Err("empty domain");
      }
      var address :- Next("missing address");
      if address == "" {
        return Err("empty address");
      }
      var blank :- Next("missing blank line");
      if blank != "" {
        return Err("expected blank line after address");
      }
      r := Ok(Head(domain, address));
    }

    method ReadFields() returns (r: Result<Fields>)
      requires Valid()
      modifies this
      ensures Valid()
      ensures match ParseFields(old(Rest()))
              case Ok((f, rest)) => r == Ok(f) && Rest() == rest
              case Err(e) => r == Err(e)
    {
      var uri :- Field("expected URI", "URI: ");
      var version :- Field("expected Version", "Version: ");
      var chainText :- Field("expected Chain ID", "Chain ID: ");
      var chainId := ParseU64(chainText);
      if chainId.None? {
        return Err("bad chain id");
      }
      var nonce :- Field("expected Nonce", "Nonce: ");
      var issuedAt :- Field("expected Issued At", "Issued At: ");
      r := Ok(Fields(uri, version, chainId.value, nonce, issuedAt));
    }

    method Expiration() returns (e: Option<string>)
      requires Valid()
      modifies this
      ensures Valid()
      ensures (e, Rest()) == ParseExpiration(old(Rest()))
    {
      e := None;
      var l := Peek();
      if l.Some? && StartsWith(l.value, "Expiration Time: ") {
        e := Some(l.value[|"Expiration Time: "|..]);
        Skip();
      }
    }

    method Statement() returns (r: Result<seq<string>>)
      requires Valid()
      modifies this
      ensures Valid()
      ensures match ParseStatement(old(Rest()), [])
              case Ok((acc, rest)) => r == Ok(acc) && Rest() == rest
              case Err(e) => r == Err(e)
    {
      var acc: seq<string> := [];
      while true
        invariant Valid() && ParseStatement(Rest(), acc) == ParseStatement(old(Rest()), [])
        decreases |lines| - i
      {
        var peeked := Peek();
        if peeked.None? {
          return Err("unterminated statement");
        }
        var l := peeked.value;
        if acc == [] && StartsWith(l, "URI: ") {
          break;
        }
        Skip();
        if l == "" {
          break;
        }
        acc := acc + [l];
      }
      r := Ok(acc);
    }

    /** Walks over the trailing lines, to the end if they are tolerated. */
    method Trailing() returns (ok: bool)
      requires Valid()
      modifies this
      ensures Valid() && ok == Tolerated(old(Rest()))
    {
      while i < |lines|
        invariant Valid() && Tolerated(Rest()) == Tolerated(old(Rest()))
        decreases |lines| - i
      {
        ghost var rest := Rest();
        var l := lines[i];
        i := i + 1;
        if StartsWith(l, "Not Before: ") || StartsWith(l, "Request ID: ") {
          continue;
        }
        if l == "Resources:" {
          while i < |lines| && StartsWith(lines[i], "- ")
            invariant Valid() && SkipItems(Rest()) == SkipItems(rest[1..])
            invariant i > |lines| - |rest|
          {
            i := i + 1;
          }
          continue;
        }
        if l == "" && AllBlank(lines[i..]) {
          assert AllBlank(rest);
          break;
        }
        assert !AllBlank(rest);
        return false;
      }
      ok := true;
    }
  }

  /** Parse a message; the cursor only moves forward, so every loop ends. */
  method ParseSiwe(msg: string) returns (r: Result<SiweMessage>)
    ensures r == ParseLines(Lines(msg))
  {
    var c := new Cursor(Lines(msg));
    var head :- c.ReadHead();
    var statementLines :- c.Statement();
    var statement := if statementLines != [] then Some(Join(statementLines)) else None;
    var f :- c.ReadFields();
    var expiration := c.Expiration();
    var ok := c.Trailing();
    if !ok {
      return Err("unexpected trailing line");
    }
    r := Ok(SiweMessage(head.domain, head.address, statement, f.uri, f.version, f.chainId, f.nonce, f.issuedAt, expiration));
  }

  // ---- whole messages ------------------------------------------------------

  /** No line break, and no carriage return at the end, which the parser would strip. */
  predicate Clean(s: string) {
    '\n' !in s && (s == "" || s[|s| - 1] != '\r')
  }

  predicate CleanLines(lines: seq<string>) {
    forall i :: 0 <= i < |lines| ==> Clean(lines[i])
  }

  /** A printed message is parsed back to its record. */
  lemma MessageRoundTrip(m: SiweMessage, y: Layout)
    requires WellFormed(m, y) && CleanLines(PrintLines(m, y))
    ensures ParseLines(Lines(Join(PrintLines(m, y)))) == Ok(m)
  {
    var lines := PrintLines(m, y);
    SplitJoin(lines);
    assert Lines(Join(lines)) == lines;
    PrintedParses(m, y);
  }

  function WithCr(lines: seq<string>): (r: seq<string>)
    ensures |r| == |lines| && forall i :: 0 <= i < |lines| ==> r[i] == lines[i] + "\r"
  {
    seq(|lines|, i requires 0 <= i < |lines| => lines[i] + "\r")
  }

  /** A message whose lines all end in a carriage return is parsed back to its record as well. */
  lemma CrLfRoundTrip(m: SiweMessage, y: Layout)
    requires WellFormed(m, y) && NewlineFree(PrintLines(m, y))
    ensures ParseLines(Lines(Join(WithCr(PrintLines(m, y))))) == Ok(m)
  {
    var lines := PrintLines(m, y);
    CrStripped(lines);
    PrintedParses(m, y);
  }

  lemma CrStripped(lines: seq<string>)
    requires lines != [] && NewlineFree(lines)
    ensures Lines(Join(WithCr(lines))) == lines
  {
    SplitJoin(WithCr(lines));
    forall i | 0 <= i < |lines| ensures StripCr(WithCr(lines)[i]) == lines[i] {
    }
  }

  predicate CleanRecord(m: SiweMessage) {
    && Clean(m.address) && Clean(m.nonce) && Clean(m.issuedAt) && '\n' !in m.domain && Clean("URI: " + m.uri)
    && Clean("Version: " + m.version)
  }

  /** The message the login page asks the wallet to sign: one statement line, no expiration. */
  function PageMessage(m: SiweMessage, statement: string): string {
    Join([m.domain + PREAMBLE_SUFFIX, m.address, "", statement, "", "URI: " + m.uri, "Version: " + m.version,
          "Chain ID: " + PrintNat(m.chainId), "Nonce: " + m.nonce, "Issued At: " + m.issuedAt])
  }

  const LOGIN_STATEMENT := "Sign in to lets_embed"

  /** Whatever clean text the page fills in, the server reads back the record the page meant. */
  lemma LoginMessageParses(m: SiweMessage)
    requires m.statement == Some(LOGIN_STATEMENT) && m.expirationTime == None && m.chainId < U64_LIMIT
    requires m.domain != "" && m.address != "" && CleanRecord(m)
    ensures ParseLines(Lines(PageMessage(m, LOGIN_STATEMENT))) == Ok(m)
  {
    assert LOGIN_STATEMENT[0] == 'S' && "URI: "[0] == 'U';
    PageMessageParses(m, LOGIN_STATEMENT);
  }

  lemma PrefixClean(prefix: string, s: string)
    requires '\n' !in prefix && Clean(s) && (prefix == "" || prefix[|prefix| - 1] != '\r')
    ensures Clean(prefix + s)
  {
  }

  lemma CleanFields(m: SiweMessage, chainText: string)
    requires CleanRecord(m) && Clean(chainText)
    ensures CleanLines(PrintFields(m, chainText))
  {
    PrefixClean("Chain ID: ", chainText);
    PrefixClean("Nonce: ", m.nonce);
    PrefixClean("Issued At: ", m.issuedAt);
  }

  lemma PageLines(m: SiweMessage, statement: string)
    requires m.statement == Some(statement) && m.expirationTime == None && '\n' !in statement
    ensures var y := Layout(false, PrintNat(m.chainId), []);
            && PrintLines(m, y) == [m.domain + PREAMBLE_SUFFIX, m.address, "", statement, ""] + PrintFields(m, y.chainText)
            && PageMessage(m, statement) == Join(PrintLines(m, y))
  {
    SplitLine(statement, "");
    var fields := PrintFields(m, PrintNat(m.chainId));
    assert fields + ([] + []) == fields;
    assert [m.domain + PREAMBLE_SUFFIX, m.address, "", statement, ""] + fields
        == [m.domain + PREAMBLE_SUFFIX, m.address, "", statement, "", fields[0], fields[1], fields[2], fields[3], fields[4]];
  }

  lemma PageMessageParses(m: SiweMessage, statement: string)
    requires m.statement == Some(statement) && m.expirationTime == None && m.chainId < U64_LIMIT
    requires m.domain != "" && m.address != "" && CleanRecord(m)
    requires Clean(statement) && StatementOk([statement])
    ensures ParseLines(Lines(PageMessage(m, statement))) == Ok(m)
  {
    var y := Layout(false, PrintNat(m.chainId), []);
    PageLines(m, statement);
    SplitLine(statement, "");
    ParsePrinted(m.chainId);
    CleanFields(m, y.chainText);
    PreambleClean(m.domain);
    MessageRoundTrip(m, y);
  }

  lemma PreambleClean(domain: string)
    requires '\n' !in domain
    ensures Clean(domain + PREAMBLE_SUFFIX)
  {
    assert '\n' !in " wants you to sign in" && '\n' !in " with your Ethereum" && '\n' !in " account:";
    assert " account:"[8] == ':';
  }
}
