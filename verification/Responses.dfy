/** The response codec of the client protocol: recursive, length-prefixed text.
    A string stands for its bytes. */
module Responses {
  import opened Prelude

  datatype Response =
    | Okay(msg: string)
    | Error(msg: string)
    | Integer(n: int)
    | Bulk(data: Option<string>)
    | Array(items: seq<Response>)

  const CRLF := "\r\n"

  // ── Decimal numbers ─────────────────────────────────────────────────

  function Digit(d: nat): char
    requires d < 10
  {
    ['0', '1', '2', '3', '4', '5', '6', '7', '8', '9'][d]
  }

  predicate IsDigit(c: char) { '0' <= c <= '9' }

  function DigitValue(c: char): nat
    requires IsDigit(c)
  {
    c as nat - '0' as nat
  }

  function Decimal(n: nat): string {
    if n < 10 then [Digit(n)] else Decimal(n / 10) + [Digit(n % 10)]
  }

  function ShowInt(n: int): string { if n < 0 then "-" + Decimal(-n) else Decimal(n) }

  /** The value of a non-empty digit string. */
  function ParseDigits(s: string): Option<nat> {
    if s == [] then None
    else
      var init, c := s[..|s| - 1], s[|s| - 1];
      if !IsDigit(c) then None
      else if init == [] then Some(DigitValue(c))
      else
        match ParseDigits(init)
        case None => None
        case Some(n) => Some(10 * n + DigitValue(c))
  }

  const I64_LIMIT := 0x8000_0000_0000_0000
  const U64_LIMIT := 0x1_0000_0000_0000_0000

  /** Signed decimal, 64 bits. */
  function ParseI64(s: string): Option<int> {
    var neg, body := s != [] && s[0] == '-', if s != [] && (s[0] == '-' || s[0] == '+') then s[1..] else s;
    match ParseDigits(body)
    case None => None
    case Some(n) =>
      var v: int := if neg then 0 - n else n;
      if -I64_LIMIT <= v < I64_LIMIT then Some(v) else None
  }

  /** Unsigned decimal, 64 bits. */
  function ParseU64(s: string): Option<nat> {
    match ParseDigits(if s != [] && s[0] == '+' then s[1..] else s)
    case None => None
    case Some(n) => if n < U64_LIMIT then Some(n) else None
  }

  ghost predicate AllDigits(s: string) { s != [] && forall i :: 0 <= i < |s| ==> IsDigit(s[i]) }

  lemma {:induction false} DecimalBack(n: nat)
    ensures ParseDigits(Decimal(n)) == Some(n) && AllDigits(Decimal(n))
  {
    if n >= 10 {
      DecimalBack(n / 10);
      var s := Decimal(n);
      assert s[..|s| - 1] == Decimal(n / 10);
    }
  }

  lemma {:induction false} IntBack(n: int)
    requires -I64_LIMIT <= n < I64_LIMIT
    ensures ParseI64(ShowInt(n)) == Some(n)
  {
    DecimalBack(if n < 0 then -n else n);
    if n < 0 {
      assert ShowInt(n)[1..] == Decimal(-n);
    }
  }

  lemma {:induction false} CountBack(n: nat)
    requires n < U64_LIMIT
    ensures ParseU64(Decimal(n)) == Some(n)
  {
    DecimalBack(n);
  }

  function Zeros(z: nat): string { seq(z, _ => '0') }

  lemma {:induction false} ZerosParse(z: nat)
    requires z > 0
    ensures ParseDigits(Zeros(z)) == Some(0)
  {
    assert Zeros(z)[..z - 1] == Zeros(z - 1);
    if z > 1 { ZerosParse(z - 1); }
  }

  lemma {:induction false} LeadingZeros(z: nat, t: string)
    requires t != []
    ensures ParseDigits(Zeros(z) + t) == ParseDigits(t)
    decreases |t|
  {
    var s, init := Zeros(z) + t, t[..|t| - 1];
    assert s[..|s| - 1] == Zeros(z) + init;
    if init == [] {
      assert Zeros(z) + init == Zeros(z);
      if z > 0 { ZerosParse(z); }
    } else {
      LeadingZeros(z, init);
    }
  }

  /** The decimal with zeros in front. */
  ghost predicate Padded(s: string, z: nat, n: nat) { s == Zeros(z) + Decimal(n) }

  lemma {:induction false} DigitBack(c: char)
    requires IsDigit(c)
    ensures DigitValue(c) < 10 && Decimal(DigitValue(c)) == [c]
  {
  }

  lemma {:induction false} DigitsPadded(s: string) returns (z: nat)
    requires ParseDigits(s).Some?
    ensures Padded(s, z, ParseDigits(s).value)
  {
    var init, c := s[..|s| - 1], s[|s| - 1];
    DigitBack(c);
    if init == [] {
      z := 0;
    } else {
      z := DigitsPadded(init);
      var m := ParseDigits(init).value;
      if m == 0 {
        assert Zeros(z) + Decimal(0) == Zeros(z + 1);
        z := z + 1;
      } else {
        var n := 10 * m + DigitValue(c);
        assert n / 10 == m && n % 10 == DigitValue(c);
      }
      assert s == init + [c];
    }
  }

  /** A sign, if any, and the padded decimal of the magnitude. */
  ghost predicate Spells(s: string, v: int, sign: string, z: nat) {
    && ((sign == "-" && v <= 0) || (sign in ["", "+"] && v >= 0))
    && s == sign + (Zeros(z) + Decimal(if v < 0 then -v else v))
  }

  lemma {:induction false} SignedParts(s: string, v: int, sign: string, z: nat)
    requires Spells(s, v, sign, z)
    ensures s != [] && (s[0] == '-' <==> sign == "-") && (s[0] == '+' <==> sign == "+")
    ensures ParseDigits(if sign == "" then s else s[1..]) == Some(if v < 0 then -v else v)
  {
    hide ParseDigits, Decimal;
    var n := if v < 0 then -v else v;
    DecimalBack(n);
    LeadingZeros(z, Decimal(n));
    var t := Zeros(z) + Decimal(n);
    assert IsDigit(t[0]);
    assert sign != "" ==> (sign + t)[1..] == t;
    assert sign == "" ==> sign + t == t;
  }

  lemma {:induction false} Unsigned(s: string, sign: string, v: int)
    requires s != [] && sign == (if s[0] in "+-" then s[..1] else "")
    requires ParseDigits(if sign == "" then s else s[1..]) == Some(if v < 0 then -v else v)
    requires (sign == "-" && v <= 0) || (sign != "-" && v >= 0)
    ensures exists z :: Spells(s, v, sign, z)
  {
    hide ParseDigits, Decimal;
    var body := if sign == "" then s else s[1..];
    var z := DigitsPadded(body);
    assert s == sign + body;
    assert s[0] in "+-" ==> s[..1] == [s[0]];
    assert Spells(s, v, sign, z);
  }

  /** A signed 64-bit integer is read from the spellings of its value, and from
      nothing else. */
  lemma {:induction false} SignedExactly(s: string, v: int)
    ensures ParseI64(s) == Some(v) <==> -I64_LIMIT <= v < I64_LIMIT && exists sign, z :: Spells(s, v, sign, z)
  {
    hide ParseDigits, Spells;
    if ParseI64(s) == Some(v) {
      if s == [] { EmptyDigits(); }
      assert s[0] in "+-" ==> s[..1] == [s[0]];
      Unsigned(s, if s[0] in "+-" then s[..1] else "", v);
    }
    if sign, z :| -I64_LIMIT <= v < I64_LIMIT && Spells(s, v, sign, z) {
      SignedParts(s, v, sign, z);
      SignKinds(s, v, sign, z);
    }
  }

  lemma {:induction false} EmptyDigits()
    ensures ParseDigits("") == None
  {
  }

  lemma {:induction false} SignKinds(s: string, v: int, sign: string, z: nat)
    requires Spells(s, v, sign, z)
    ensures sign in ["", "+", "-"] && (sign == "-" ==> v <= 0) && (sign != "-" ==> v >= 0)
  {
  }

  /** And an unsigned one likewise, without a minus sign. */
  lemma {:induction false} UnsignedExactly(s: string, v: nat)
    ensures ParseU64(s) == Some(v) <==> v < U64_LIMIT && exists sign, z :: sign != "-" && Spells(s, v, sign, z)
  {
    hide ParseDigits, Spells;
    if ParseU64(s) == Some(v) {
      if s == [] { EmptyDigits(); }
      if s[0] == '-' { NoMinus(s); }
      assert s[0] in "+-" ==> s[..1] == [s[0]];
      Unsigned(s, if s[0] in "+-" then s[..1] else "", v);
    }
    if sign, z :| v < U64_LIMIT && sign != "-" && Spells(s, v, sign, z) {
      SignedParts(s, v, sign, z);
      SignKinds(s, v, sign, z);
    }
  }

  lemma {:induction false} NoMinus(s: string)
    requires s != [] && s[0] == '-'
    ensures ParseDigits(s) == None
  {
    var init := s[..|s| - 1];
    if init != [] { NoMinus(init); }
  }

  // ── Line ends ───────────────────────────────────────────────────────

  predicate CrlfAt(s: string, i: nat) { i + 1 < |s| && s[i] == '\r' && s[i + 1] == '\n' }

  predicate NoCrlf(s: string) { forall i :: 0 <= i < |s| ==> !CrlfAt(s, i) }

  /** The first line end. */
  function FindCrlf(s: string): (r: Option<nat>)
    ensures r.Some? ==> CrlfAt(s, r.value) && forall i :: 0 <= i < r.value ==> !CrlfAt(s, i)
    ensures r.None? ==> NoCrlf(s)
  {
    FindFrom(s, 0)
  }

  function FindFrom(s: string, i: nat): (r: Option<nat>)
    requires i <= |s| && forall j :: 0 <= j < i ==> !CrlfAt(s, j)
    ensures r.Some? ==> CrlfAt(s, r.value) && forall j :: 0 <= j < r.value ==> !CrlfAt(s, j)
    ensures r.None? ==> NoCrlf(s)
    decreases |s| - i
  {
    if i == |s| then None else if CrlfAt(s, i) then Some(i) else FindFrom(s, i + 1)
  }

  lemma {:induction false} FindIs(s: string, k: nat)
    requires CrlfAt(s, k) && forall i :: 0 <= i < k ==> !CrlfAt(s, i)
    ensures FindCrlf(s) == Some(k)
  {
  }

  /** A line without a line end of its own is found whole. */
  lemma {:induction false} LineFound(a: string, rest: string)
    requires NoCrlf(a)
    ensures FindCrlf(a + CRLF + rest) == Some(|a|)
  {
    var s := a + CRLF + rest;
    assert s[|a|] == '\r' && s[|a| + 1] == '\n';
    forall i | 0 <= i < |a| ensures !CrlfAt(s, i) { assert !CrlfAt(a, i); }
    FindIs(s, |a|);
  }

  /** A proper prefix of such a line has no line end. */
  lemma {:induction false} PartialLine(a: string, part: string)
    requires NoCrlf(a) && part <= a + CRLF && part != a + CRLF
    ensures FindCrlf(part) == None
  {
    forall i | 0 <= i < |part| ensures !CrlfAt(part, i) {
      if i < |a| { assert !CrlfAt(a, i); }
    }
  }

  // ── Serialising ─────────────────────────────────────────────────────

  function Serialize(r: Response): string
    decreases r
  {
    match r
    case Okay(msg) => "+" + msg + CRLF
    case Error(msg) => "-ERR " + msg + CRLF
    case Integer(n) => ":" + ShowInt(n) + CRLF
    case Bulk(None) => "$-1" + CRLF
    case Bulk(Some(data)) => "$" + Decimal(|data|) + CRLF + data + CRLF
    case Array(items) => "*" + Decimal(|items|) + CRLF + SerializeAll(items)
  }

  function SerializeAll(items: seq<Response>): string
    decreases items
  {
    if items == [] then "" else Serialize(items[0]) + SerializeAll(items[1..])
  }

  // ── Parsing ─────────────────────────────────────────────────────────

  datatype ParseError = Incomplete | InvalidPrefix(c: char) | InvalidInteger(s: string) | InvalidBulkLength(s: string)

  datatype Parsed<T> = Parsed(value: T, consumed: nat)

  /** "ERR " taken off the front if it is there. */
  function StripErr(s: string): string { if "ERR " <= s then s[4..] else s }

  function Parse(s: string): (r: Result<Parsed<Response>, ParseError>)
    ensures r.Ok? ==> 1 <= r.value.consumed <= |s|
    decreases |s|, 0
  {
    if s == [] then Err(Incomplete)
    else if s[0] !in "+-:$*" then Err(InvalidPrefix(s[0]))
    else
      match FindCrlf(s)
      case None => Err(Incomplete)
      case Some(k) => ParseLine(s, k)
  }

  /** The parser once the header line has been found. */
  function ParseLine(s: string, k: nat): (r: Result<Parsed<Response>, ParseError>)
    requires 1 <= k && k + 2 <= |s|
    ensures r.Ok? ==> 1 <= r.value.consumed <= |s|
    decreases |s|, 0, 0
  {
    var line, start := s[1..k], k + 2;
    if s[0] == '+' then Ok(Parsed(Okay(line), start))
    else if s[0] == '-' then Ok(Parsed(Error(StripErr(line)), start))
    else if s[0] == ':' then
      match ParseI64(line)
      case None => Err(InvalidInteger(line))
      case Some(n) => Ok(Parsed(Integer(n), start))
    else if s[0] == '$' then
      match ParseI64(line)
      case None => Err(InvalidBulkLength(line))
      case Some(n) =>
        if n < 0 then Ok(Parsed(Bulk(None), start))
        else if |s| < start + n + 2 then Err(Incomplete)
        else Ok(Parsed(Bulk(Some(s[start..start + n])), start + n + 2))
    else
      match ParseU64(line)
      case None => Err(InvalidBulkLength(line))
      case Some(n) =>
        match ParseItems(s[start..], n)
        case Err(e) => Err(e)
        case Ok(p) => Ok(Parsed(Array(p.value), start + p.consumed))
  }

  function ParseItems(s: string, count: nat): (r: Result<Parsed<seq<Response>>, ParseError>)
    ensures r.Ok? ==> r.value.consumed <= |s|
    decreases |s|, 1
  {
    if count == 0 then Ok(Parsed([], 0))
    else
      match Parse(s)
      case Err(e) => Err(e)
      case Ok(p) =>
        match ParseItems(s[p.consumed..], count - 1)
        case Err(e) => Err(e)
        case Ok(q) => Ok(Parsed([p.value] + q.value, p.consumed + q.consumed))
  }

  // ── Round trip ──────────────────────────────────────────────────────

  /** Numbers and lengths have the source's widths. */
  ghost predicate Sized(r: Response)
    decreases r
  {
    match r
    case Integer(n) => -I64_LIMIT <= n < I64_LIMIT
    case Bulk(Some(data)) => |data| < I64_LIMIT
    case Array(items) => |items| < U64_LIMIT && forall i :: 0 <= i < |items| ==> Sized(items[i])
    case _ => true
  }

  /** No one-line string inside contains a line end. */
  ghost predicate Clean(r: Response)
    decreases r
  {
    match r
    case Okay(msg) => NoCrlf(msg)
    case Error(msg) => NoCrlf(msg)
    case Array(items) => forall i :: 0 <= i < |items| ==> Clean(items[i])
    case _ => true
  }

  function Message(c: char, line: string, rest: string): string { [c] + line + CRLF + rest }

  lemma {:induction false} HeaderFound(c: char, line: string, rest: string)
    requires c in "+-:$*" && NoCrlf(line)
    ensures var s := Message(c, line, rest);
            && |s| == |line| + 3 + |rest| && s[0] == c && s[1..1 + |line|] == line && s[|line| + 3..] == rest
            && Parse(s) == ParseLine(s, 1 + |line|)
  {
    hide ParseLine, FindCrlf;
    var a := [c] + line;
    forall i | 0 <= i < |a| ensures !CrlfAt(a, i) { if i > 0 { assert !CrlfAt(line, i - 1); } }
    LineFound(a, rest);
  }

  lemma {:induction false} DigitsClean(s: string)
    requires AllDigits(s)
    ensures NoCrlf(s) && NoCrlf("-" + s)
  {
    assert forall i :: 0 <= i < |s| ==> s[i] != '\r';
  }

  lemma {:induction false} Simple(msg: string, rest: string)
    requires NoCrlf(msg)
    ensures Parse(Serialize(Okay(msg)) + rest) == Ok(Parsed(Okay(msg), |Serialize(Okay(msg))|))
  {
    HeaderFound('+', msg, rest);
    assert Serialize(Okay(msg)) + rest == Message('+', msg, rest);
  }

  lemma {:induction false} Failure(msg: string, rest: string)
    requires NoCrlf(msg)
    ensures Parse(Serialize(Error(msg)) + rest) == Ok(Parsed(Error(msg), |Serialize(Error(msg))|))
  {
    var line := "ERR " + msg;
    ErrClean(msg);
    HeaderFound('-', line, rest);
    assert Serialize(Error(msg)) + rest == Message('-', line, rest);
    assert line[4..] == msg;
  }

  lemma {:induction false} ErrClean(msg: string)
    requires NoCrlf(msg)
    ensures NoCrlf("ERR " + msg)
  {
    var line := "ERR " + msg;
    forall i | 0 <= i < |line| ensures !CrlfAt(line, i) { if i >= 4 { assert !CrlfAt(msg, i - 4); } }
  }

  lemma {:induction false} Number(n: int, rest: string)
    requires Sized(Integer(n))
    ensures Parse(Serialize(Integer(n)) + rest) == Ok(Parsed(Integer(n), |Serialize(Integer(n))|))
  {
    DecimalBack(if n < 0 then -n else n);
    DigitsClean(Decimal(if n < 0 then -n else n));
    IntBack(n);
    HeaderFound(':', ShowInt(n), rest);
    assert Serialize(Integer(n)) + rest == Message(':', ShowInt(n), rest);
    hide ShowInt, Parse, ParseI64;
  }

  lemma {:induction false} NullBulk(rest: string)
    ensures Parse(Serialize(Bulk(None)) + rest) == Ok(Parsed(Bulk(None), |Serialize(Bulk(None))|))
  {
    IntBack(-1);
    assert Decimal(1) == "1" && ShowInt(-1) == "-1";
    assert AllDigits("1");
    DigitsClean("1");
    assert "-" + "1" == "-1";
    HeaderFound('$', "-1", rest);
    assert Serialize(Bulk(None)) + rest == Message('$', "-1", rest);
  }

  lemma {:induction false} BulkData(data: string, rest: string)
    requires |data| < I64_LIMIT
    ensures Parse(Serialize(Bulk(Some(data))) + rest) == Ok(Parsed(Bulk(Some(data)), |Serialize(Bulk(Some(data)))|))
  {
    hide Parse, ParseI64, Decimal;
    var len, tail := Decimal(|data|), data + CRLF + rest;
    DecimalBack(|data|);
    DigitsClean(len);
    IntBack(|data|);
    HeaderFound('$', len, tail);
    var s := Message('$', len, tail);
    assert Serialize(Bulk(Some(data))) + rest == s;
    assert s[|len| + 3..][..|data|] == data;
    assert s[|len| + 3..|len| + 3 + |data|] == data;
  }

  /** A clean response comes back from its serialisation, whatever follows, with
      its exact length. */
  lemma {:induction false} RoundTrip(r: Response, rest: string)
    requires Sized(r) && Clean(r)
    ensures Parse(Serialize(r) + rest) == Ok(Parsed(r, |Serialize(r)|))
    decreases r
  {
    hide Parse, Serialize, ParseItems, SerializeAll;
    match r
    case Okay(msg) => Simple(msg, rest);
    case Error(msg) => Failure(msg, rest);
    case Integer(n) => Number(n, rest);
    case Bulk(None) => NullBulk(rest);
    case Bulk(Some(data)) => BulkData(data, rest);
    case Array(items) =>
      ItemsBack(items, rest);
      ArrayBack(items, rest);
  }

  lemma {:induction false} ArrayBack(items: seq<Response>, rest: string)
    requires && |items| < U64_LIMIT
             && ParseItems(SerializeAll(items) + rest, |items|) == Ok(Parsed(items, |SerializeAll(items)|))
    ensures Parse(Serialize(Array(items)) + rest) == Ok(Parsed(Array(items), |Serialize(Array(items))|))
  {
    hide Parse, ParseItems, SerializeAll, Decimal;
    ArrayHeader(items, SerializeAll(items) + rest);
    Assoc("*" + Decimal(|items|) + CRLF, SerializeAll(items), rest);
  }

  /** An array's answer is its items' answer, after its header. */
  lemma {:induction false} ArrayHeader(items: seq<Response>, body: string)
    requires |items| < U64_LIMIT
    ensures var head, q := "*" + Decimal(|items|) + CRLF, ParseItems(body, |items|);
            Parse(head + body)
              == if q.Ok? then Ok(Parsed(Array(q.value.value), |head| + q.value.consumed)) else Err(q.error)
  {
    hide Parse, ParseItems, Decimal, ParseU64;
    var len := Decimal(|items|);
    DecimalBack(|items|);
    DigitsClean(len);
    CountBack(|items|);
    HeaderFound('*', len, body);
    assert "*" + len + CRLF + body == Message('*', len, body);
  }

  lemma {:induction false} ItemsBack(items: seq<Response>, rest: string)
    requires forall i :: 0 <= i < |items| ==> Sized(items[i]) && Clean(items[i])
    ensures ParseItems(SerializeAll(items) + rest, |items|) == Ok(Parsed(items, |SerializeAll(items)|))
    decreases items
  {
    hide Parse, Serialize, Sized, Clean;
    if items != [] {
      var a, more := Serialize(items[0]), SerializeAll(items[1..]) + rest;
      RoundTrip(items[0], more);
      ItemsBack(items[1..], rest);
      Assoc(a, SerializeAll(items[1..]), rest);
      assert (a + more)[|a|..] == more;
      assert items == [items[0]] + items[1..];
    }
  }

  /** Every proper prefix of a clean response's serialisation is incomplete. */
  lemma {:induction false} Prefixes(r: Response, part: string)
    requires Sized(r) && Clean(r) && part <= Serialize(r) && part != Serialize(r)
    ensures Parse(part) == Err(Incomplete)
    decreases r
  {
    match r
    case Okay(msg) => PartialHeader('+', msg, part);
    case Error(msg) =>
      ErrClean(msg);
      assert "-ERR " + msg == "-" + ("ERR " + msg);
      PartialHeader('-', "ERR " + msg, part);
    case Integer(n) =>
      DecimalBack(if n < 0 then -n else n);
      DigitsClean(Decimal(if n < 0 then -n else n));
      PartialHeader(':', ShowInt(n), part);
    case Bulk(None) =>
      assert AllDigits("1");
      DigitsClean("1");
      assert "-" + "1" == "-1";
      PartialHeader('$', "-1", part);
    case Bulk(Some(data)) => PartialBulk(data, part);
    case Array(items) => PartialArray(items, part);
  }

  lemma {:induction false} PartialHeader(c: char, line: string, part: string)
    requires c in "+-:$*" && NoCrlf(line) && part <= [c] + line + CRLF && part != [c] + line + CRLF
    ensures Parse(part) == Err(Incomplete)
  {
    hide ParseLine, FindCrlf;
    var a := [c] + line;
    forall i | 0 <= i < |a| ensures !CrlfAt(a, i) { if i > 0 { assert !CrlfAt(line, i - 1); } }
    PartialLine(a, part);
  }

  /** Past the header, a prefix is the header and a prefix of the body. */
  lemma {:induction false} CutBody(head: string, body: string, part: string)
    requires part <= head + body && part != head + body && !(part <= head && part != head)
    ensures part == head + part[|head|..] && part[|head|..] <= body && part[|head|..] != body
  {
  }

  lemma {:induction false} PartialBulk(data: string, part: string)
    requires |data| < I64_LIMIT && part <= Serialize(Bulk(Some(data))) && part != Serialize(Bulk(Some(data)))
    ensures Parse(part) == Err(Incomplete)
  {
    hide Parse, ParseI64, Decimal;
    var len, body := Decimal(|data|), data + CRLF;
    var head := "$" + len + CRLF;
    DecimalBack(|data|);
    DigitsClean(len);
    Assoc(head, data, CRLF);
    if part <= head && part != head {
      PartialHeader('$', len, part);
    } else {
      CutBody(head, body, part);
      IntBack(|data|);
      HeaderFound('$', len, part[|head|..]);
    }
  }

  lemma {:induction false} PartialArray(items: seq<Response>, part: string)
    requires && Sized(Array(items)) && Clean(Array(items)) && part <= Serialize(Array(items))
             && part != Serialize(Array(items))
    ensures Parse(part) == Err(Incomplete)
    decreases items, 1
  {
    hide Parse, Decimal, ParseItems, SerializeAll;
    var len, body := Decimal(|items|), SerializeAll(items);
    var head := "*" + len + CRLF;
    DecimalBack(|items|);
    DigitsClean(len);
    if part <= head && part != head {
      PartialHeader('*', len, part);
    } else {
      CutBody(head, body, part);
      ArrayHeader(items, part[|head|..]);
      PartialItems(items, part[|head|..]);
    }
  }

  lemma {:induction false} PartialItems(items: seq<Response>, part: string)
    requires forall i :: 0 <= i < |items| ==> Sized(items[i]) && Clean(items[i])
    requires part <= SerializeAll(items) && part != SerializeAll(items)
    ensures ParseItems(part, |items|) == Err(Incomplete)
    decreases items, 0
  {
    hide Parse, Serialize, Sized, Clean;
    if items != [] {
      var a, more := Serialize(items[0]), SerializeAll(items[1..]);
      if part <= a && part != a {
        Prefixes(items[0], part);
      } else {
        CutBody(a, more, part);
        RoundTrip(items[0], part[|a|..]);
        PartialItems(items[1..], part[|a|..]);
      }
    }
  }

  // ── Line ends in messages ───────────────────────────────────────────

  /** The parser gave this very response back. */
  ghost predicate Returned(p: Result<Parsed<Response>, ParseError>, r: Response) { p.Ok? && p.value.value == r }

  /** A line with a line end inside is cut at the first one. */
  lemma {:induction false} LineCut(c: char, line: string, rest: string, k: nat)
    requires c in "+-:$*" && CrlfAt(line, k) && forall i :: 0 <= i < k ==> !CrlfAt(line, i)
    ensures var s := Message(c, line, rest);
      k + 3 <= |s| && s[0] == c && s[1..k + 1] == line[..k] && Parse(s) == ParseLine(s, k + 1)
  {
    hide ParseLine, FindCrlf;
    var s := Message(c, line, rest);
    assert forall i :: 0 <= i < |line| ==> s[i + 1] == line[i];
    assert CrlfAt(s, k + 1);
    forall i | 0 <= i < k + 1 ensures !CrlfAt(s, i) { if i > 0 { assert !CrlfAt(line, i - 1); } }
    FindIs(s, k + 1);
  }

  lemma {:induction false} SimpleCut(msg: string, rest: string)
    requires !NoCrlf(msg)
    ensures !Returned(Parse(Serialize(Okay(msg)) + rest), Okay(msg))
  {
    hide Parse;
    var k := FindCrlf(msg).value;
    LineCut('+', msg, rest, k);
    assert Serialize(Okay(msg)) + rest == Message('+', msg, rest);
  }

  lemma {:induction false} FailureCut(msg: string, rest: string)
    requires !NoCrlf(msg)
    ensures !Returned(Parse(Serialize(Error(msg)) + rest), Error(msg))
  {
    hide Parse;
    var k, line := FindCrlf(msg).value, "ERR " + msg;
    assert CrlfAt(line, k + 4);
    forall i | 0 <= i < k + 4 ensures !CrlfAt(line, i) { if i >= 4 { assert !CrlfAt(msg, i - 4); } }
    LineCut('-', line, rest, k + 4);
    assert Serialize(Error(msg)) + rest == Message('-', line, rest);
    assert |StripErr(line[..k + 4])| == k;
  }

  /** A response with a line end in a message never comes back. */
  lemma {:induction false} NeverBack(r: Response, rest: string)
    requires Sized(r) && !Clean(r)
    ensures !Returned(Parse(Serialize(r) + rest), r)
    decreases r
  {
    match r
    case Okay(msg) => SimpleCut(msg, rest);
    case Error(msg) => FailureCut(msg, rest);
    case Array(items) =>
      hide Parse, ParseItems, SerializeAll;
      ItemsNeverBack(items, rest);
      ArrayHeader(items, SerializeAll(items) + rest);
      Assoc("*" + Decimal(|items|) + CRLF, SerializeAll(items), rest);
  }

  lemma {:induction false} ItemsNeverBack(items: seq<Response>, rest: string)
    requires (forall i :: 0 <= i < |items| ==> Sized(items[i])) && exists i :: 0 <= i < |items| && !Clean(items[i])
    ensures var q := ParseItems(SerializeAll(items) + rest, |items|); !(q.Ok? && q.value.value == items)
    decreases items
  {
    hide Parse, Serialize, Sized, Clean;
    var a, more := Serialize(items[0]), SerializeAll(items[1..]) + rest;
    Assoc(a, SerializeAll(items[1..]), rest);
    if Clean(items[0]) {
      RoundTrip(items[0], more);
      assert (a + more)[|a|..] == more;
      var i :| 0 <= i < |items| && !Clean(items[i]);
      assert items[1..][i - 1] == items[i];
      ItemsNeverBack(items[1..], rest);
    } else {
      NeverBack(items[0], more);
    }
  }

  /** The round trip holds exactly for responses without line ends in their
      messages. */
  lemma {:induction false} RoundTripExactly(r: Response, rest: string)
    requires Sized(r)
    ensures Parse(Serialize(r) + rest) == Ok(Parsed(r, |Serialize(r)|)) <==> Clean(r)
  {
    if Clean(r) { RoundTrip(r, rest); } else { NeverBack(r, rest); }
  }

  // ── Bulk strings ────────────────────────────────────────────────────

  /** The first k characters are a length line, so much data, and two more
      characters, whatever they are. */
  ghost predicate BulkForm(s: string, k: nat, line: string, data: string, end: string) {
    && NoCrlf(line) && ParseI64(line) == Some(|data|) && |end| == 2
    && k <= |s| && s[..k] == "$" + line + CRLF + data + end
  }

  /** Exactly the inputs of that form are read as a bulk string of that data and
      length: the line end after the data is counted but not looked at. */
  lemma {:induction false} BulkExactly(s: string, data: string, k: nat)
    ensures Parse(s) == Ok(Parsed(Bulk(Some(data)), k)) <==> exists line, end :: BulkForm(s, k, line, data, end)
  {
    hide BulkForm, Parse;
    if Parse(s) == Ok(Parsed(Bulk(Some(data)), k)) {
      var line, end := BulkParts(s, data, k);
    }
    if line, end :| BulkForm(s, k, line, data, end) {
      BulkParses(s, k, line, data, end);
    }
  }

  lemma {:induction false} BulkParts(s: string, data: string, k: nat) returns (line: string, end: string)
    requires Parse(s) == Ok(Parsed(Bulk(Some(data)), k))
    ensures BulkForm(s, k, line, data, end)
  {
    hide ParseI64, ParseU64, ParseItems;
    var at := FindCrlf(s).value;
    line := s[1..at];
    end := s[k - 2..k];
    forall i | 0 <= i < |line| ensures !CrlfAt(line, i) {
      assert !CrlfAt(s, i + 1) && line[i] == s[i + 1];
      assert i + 1 < |line| ==> line[i + 1] == s[i + 2];
    }
    assert s[..k] == s[..1] + s[1..at] + s[at..at + 2] + s[at + 2..k - 2] + s[k - 2..k];
    assert s[..1] == "$" && s[at..at + 2] == CRLF;
  }

  lemma {:induction false} BulkParses(s: string, k: nat, line: string, data: string, end: string)
    requires BulkForm(s, k, line, data, end)
    ensures Parse(s) == Ok(Parsed(Bulk(Some(data)), k))
  {
    hide Parse, ParseI64;
    var tail := data + end + s[k..];
    HeaderFound('$', line, tail);
    assert s == s[..k] + s[k..];
    assert s == Message('$', line, tail);
    assert s[|line| + 3..][..|data|] == data;
    assert s[|line| + 3..|line| + 3 + |data|] == data;
  }

  // ── The grammar ─────────────────────────────────────────────────────

  ghost predicate IsLine(t: string, c: char, line: string) { NoCrlf(line) && t == [c] + line + CRLF }

  ghost predicate IsArray(t: string, line: string, body: string, n: nat) {
    NoCrlf(line) && ParseU64(line) == Some(n) && t == Message('*', line, body)
  }

  ghost predicate IsCut(t: string, a: string, b: string) { t == a + b }

  /** What the text of a response may look like: an error with or without its
      marker, any spelling of a number, any negative length for the null bulk,
      any two characters after bulk data. */
  ghost predicate Reads(t: string, r: Response)
    decreases r
  {
    match r
    case Okay(msg) => IsLine(t, '+', msg)
    case Error(msg) => IsLine(t, '-', "ERR " + msg) || (IsLine(t, '-', msg) && !("ERR " <= msg))
    case Integer(n) => exists line :: IsLine(t, ':', line) && ParseI64(line) == Some(n)
    case Bulk(None) => exists line :: IsLine(t, '$', line) && ParseI64(line).Some? && ParseI64(line).value < 0
    case Bulk(Some(data)) => exists line, end :: BulkForm(t, |t|, line, data, end)
    case Array(items) => exists line, body :: IsArray(t, line, body, |items|) && ReadsAll(body, items)
  }

  ghost predicate ReadsAll(t: string, items: seq<Response>)
    decreases items
  {
    if items == [] then t == "" else exists a, b :: IsCut(t, a, b) && Reads(a, items[0]) && ReadsAll(b, items[1..])
  }

  lemma {:induction false} LineParses(t: string, c: char, line: string, rest: string)
    requires IsLine(t, c, line) && c in "+-:$*"
    ensures var s := t + rest;
            |s| >= |line| + 3 && s[0] == c && s[1..1 + |line|] == line && |t| == |line| + 3
              && Parse(s) == ParseLine(s, 1 + |line|)
  {
    hide Parse, ParseLine;
    HeaderFound(c, line, rest);
    assert t + rest == Message(c, line, rest);
  }

  lemma {:induction false} ErrorParses(t: string, msg: string, rest: string)
    requires Reads(t, Error(msg))
    ensures Parse(t + rest) == Ok(Parsed(Error(msg), |t|))
  {
    hide Parse;
    var line := if IsLine(t, '-', "ERR " + msg) then "ERR " + msg else msg;
    LineParses(t, '-', line, rest);
    assert ("ERR " + msg)[4..] == msg;
  }

  lemma {:induction false} NumberParses(t: string, r: Response, rest: string)
    requires Reads(t, r) && (r.Integer? || r == Bulk(None))
    ensures Parse(t + rest) == Ok(Parsed(r, |t|))
  {
    hide Parse, ParseI64;
    if r.Integer? {
      var line :| IsLine(t, ':', line) && ParseI64(line) == Some(r.n);
      LineParses(t, ':', line, rest);
    } else {
      var line :| IsLine(t, '$', line) && ParseI64(line).Some? && ParseI64(line).value < 0;
      LineParses(t, '$', line, rest);
    }
  }

  lemma {:induction false} DataParses(t: string, data: string, rest: string)
    requires Reads(t, Bulk(Some(data)))
    ensures Parse(t + rest) == Ok(Parsed(Bulk(Some(data)), |t|))
  {
    hide Parse, ParseI64;
    var line, end :| BulkForm(t, |t|, line, data, end);
    assert (t + rest)[..|t|] == t == t[..|t|];
    BulkParses(t + rest, |t|, line, data, end);
  }

  lemma {:induction false} ArrayParses(t: string, line: string, body: string, items: seq<Response>, rest: string)
    requires IsArray(t, line, body, |items|) && ParseItems(body + rest, |items|) == Ok(Parsed(items, |body|))
    ensures Parse(t + rest) == Ok(Parsed(Array(items), |t|))
  {
    hide Parse, ParseU64, ParseItems;
    HeaderFound('*', line, body + rest);
    assert t + rest == Message('*', line, body + rest);
  }

  /** Text of that form is read as that response, whatever follows. */
  lemma {:induction false} FormParses(t: string, r: Response, rest: string)
    requires Reads(t, r)
    ensures Parse(t + rest) == Ok(Parsed(r, |t|))
    decreases r
  {
    match r
    case Okay(msg) => LineParses(t, '+', msg, rest);
    case Error(msg) => ErrorParses(t, msg, rest);
    case Integer(n) => NumberParses(t, r, rest);
    case Bulk(None) => NumberParses(t, r, rest);
    case Bulk(Some(data)) => DataParses(t, data, rest);
    case Array(items) =>
      hide Parse, ParseItems, ParseU64;
      var line, body :| IsArray(t, line, body, |items|) && ReadsAll(body, items);
      FormsParse(body, items, rest);
      ArrayParses(t, line, body, items, rest);
  }

  lemma {:induction false} FormsParse(t: string, items: seq<Response>, rest: string)
    requires ReadsAll(t, items)
    ensures ParseItems(t + rest, |items|) == Ok(Parsed(items, |t|))
    decreases items
  {
    hide Parse, Reads;
    if items != [] {
      var a, b :| IsCut(t, a, b) && Reads(a, items[0]) && ReadsAll(b, items[1..]);
      FormParses(a, items[0], b + rest);
      FormsParse(b, items[1..], rest);
      Assoc(a, b, rest);
      assert (a + (b + rest))[|a|..] == b + rest;
      assert items == [items[0]] + items[1..];
    }
  }

  /** The header line, as the parser finds it. */
  lemma {:induction false} HeaderIs(s: string) returns (k: nat)
    requires Parse(s).Ok?
    ensures 1 <= k && k + 2 <= |s| && s[0] in "+-:$*" && Parse(s) == ParseLine(s, k)
    ensures IsLine(s[..k + 2], s[0], s[1..k]) && s == Message(s[0], s[1..k], s[k + 2..])
  {
    hide ParseLine;
    k := FindCrlf(s).value;
    var line := s[1..k];
    forall i | 0 <= i < |line| ensures !CrlfAt(line, i) {
      assert !CrlfAt(s, i + 1) && line[i] == s[i + 1];
      assert i + 1 < |line| ==> line[i + 1] == s[i + 2];
    }
    assert s[..k + 2] == [s[0]] + line + CRLF;
    assert s == s[..k + 2] + s[k + 2..];
  }

  lemma {:induction false} StrippedReads(t: string, line: string)
    requires IsLine(t, '-', line)
    ensures Reads(t, Error(StripErr(line)))
  {
    if "ERR " <= line { assert line == "ERR " + line[4..]; }
  }

  /** Whatever is read was of that form. */
  lemma {:induction false} ParsedReads(s: string)
    requires Parse(s).Ok?
    ensures var p := Parse(s).value; Reads(s[..p.consumed], p.value)
    decreases |s|, 0
  {
    hide Parse, ParseI64, ParseU64, ParseItems;
    var k := HeaderIs(s);
    var line, start := s[1..k], k + 2;
    if s[0] == '-' {
      StrippedReads(s[..start], line);
    } else if s[0] == '$' {
      if ParseI64(line).value >= 0 {
        BulkReads(s, Parse(s).value.value.data.value, Parse(s).value.consumed);
      }
    } else if s[0] == '*' {
      ParsedAllRead(s[start..], ParseU64(line).value);
      ArrayReads(s, k, ParseU64(line).value);
    }
  }

  lemma {:induction false} BulkReads(s: string, data: string, k: nat)
    requires Parse(s) == Ok(Parsed(Bulk(Some(data)), k))
    ensures Reads(s[..k], Bulk(Some(data)))
  {
    hide Parse, ParseI64;
    var line, end := BulkParts(s, data, k);
    assert s[..k][..k] == s[..k];
    assert BulkForm(s[..k], k, line, data, end);
  }

  lemma {:induction false} ArrayReads(s: string, k: nat, n: nat)
    requires 1 <= k && k + 2 <= |s| && s[0] == '*' && NoCrlf(s[1..k]) && ParseU64(s[1..k]) == Some(n)
    requires s == Message('*', s[1..k], s[k + 2..])
    requires ParseItems(s[k + 2..], n).Ok?
    requires var p := ParseItems(s[k + 2..], n).value; |p.value| == n && ReadsAll(s[k + 2..][..p.consumed], p.value)
    ensures var p := ParseItems(s[k + 2..], n).value; Reads(s[..k + 2 + p.consumed], Array(p.value))
  {
    hide ParseU64, ParseItems, ReadsAll;
    var p := ParseItems(s[k + 2..], n).value;
    var line, body := s[1..k], s[k + 2..][..p.consumed];
    assert s[..k + 2 + p.consumed] == Message('*', line, body);
    assert IsArray(s[..k + 2 + p.consumed], line, body, n);
  }

  lemma {:induction false} ParsedAllRead(s: string, count: nat)
    requires ParseItems(s, count).Ok?
    ensures var p := ParseItems(s, count).value; |p.value| == count && ReadsAll(s[..p.consumed], p.value)
    decreases |s|, 1
  {
    hide Parse, Reads;
    if count > 0 {
      var p := Parse(s).value;
      ParsedReads(s);
      ParsedAllRead(s[p.consumed..], count - 1);
      var q := ParseItems(s[p.consumed..], count - 1).value;
      assert ([p.value] + q.value)[1..] == q.value;
      assert IsCut(s[..p.consumed + q.consumed], s[..p.consumed], s[p.consumed..][..q.consumed]);
    }
  }

  /** The parser is exactly the grammar: it reads a response and a length exactly
      when the input starts with a text of that length for that response. */
  lemma {:induction false} ParsesExactly(s: string, r: Response, k: nat)
    ensures Parse(s) == Ok(Parsed(r, k)) <==> k <= |s| && Reads(s[..k], r)
  {
    hide Parse, Reads;
    if Parse(s) == Ok(Parsed(r, k)) { ParsedReads(s); }
    if k <= |s| && Reads(s[..k], r) {
      FormParses(s[..k], r, s[k..]);
      assert s == s[..k] + s[k..];
    }
  }

  // ── Errors ──────────────────────────────────────────────────────────

  /** Without a complete header line: an unknown first character, or more input
      is needed. */
  lemma {:induction false} NoHeader(s: string)
    requires s == [] || s[0] !in "+-:$*" || NoCrlf(s)
    ensures Parse(s) == Err(if s != [] && s[0] !in "+-:$*" then InvalidPrefix(s[0]) else Incomplete)
  {
    assert FindCrlf(s).Some? ==> CrlfAt(s, FindCrlf(s).value);
  }

  /** The input starts with so many readable items, and what follows them fails. */
  ghost predicate FailsAfter(s: string, count: nat, e: ParseError, a: string, b: string, items: seq<Response>) {
    IsCut(s, a, b) && |items| < count && ReadsAll(a, items) && Parse(b) == Err(e)
  }

  lemma {:induction false} ItemsFail(s: string, count: nat, e: ParseError)
      returns (a: string, b: string, items: seq<Response>)
    requires ParseItems(s, count) == Err(e)
    ensures FailsAfter(s, count, e, a, b, items)
    decreases count
  {
    hide Parse, Reads;
    if Parse(s).Err? {
      a, b, items := "", s, [];
      assert s == "" + s;
    } else {
      var p := Parse(s).value;
      a, b, items := ItemsFail(s[p.consumed..], count - 1, e);
      ParsedReads(s);
      var whole, more := s[..p.consumed] + a, [p.value] + items;
      assert IsCut(whole, s[..p.consumed], a) && more[1..] == items;
      assert s == s[..p.consumed] + s[p.consumed..];
      Assoc(s[..p.consumed], a, b);
      a, items := whole, more;
    }
  }

  lemma {:induction false} FailsItems(a: string, b: string, items: seq<Response>, count: nat, e: ParseError)
    requires |items| < count && ReadsAll(a, items) && Parse(b) == Err(e)
    ensures ParseItems(a + b, count) == Err(e)
    decreases items
  {
    hide Parse, Reads;
    if items == [] {
      assert a + b == b;
    } else {
      var x, y :| IsCut(a, x, y) && Reads(x, items[0]) && ReadsAll(y, items[1..]);
      FormParses(x, items[0], y + b);
      FailsItems(y, b, items[1..], count - 1, e);
      Assoc(x, y, b);
      assert (x + (y + b))[|x|..] == y + b;
    }
  }

  /** With a header line: a number that is none, bulk data cut short, or the
      first item of an array that fails after readable ones. */
  lemma {:induction false} ErrorsExactly(c: char, line: string, rest: string, e: ParseError)
    requires c in "+-:$*" && NoCrlf(line)
    ensures Parse(Message(c, line, rest)) == Err(e) <==>
      || (c == ':' && ParseI64(line).None? && e == InvalidInteger(line))
      || (c == '$' && ParseI64(line).None? && e == InvalidBulkLength(line))
      || (c == '$' && ParseI64(line).Some? && 0 <= ParseI64(line).value && |rest| < ParseI64(line).value + 2
          && e == Incomplete)
      || (c == '*' && ParseU64(line).None? && e == InvalidBulkLength(line))
      || (c == '*' && ParseU64(line).Some?
          && exists a, b, items :: FailsAfter(rest, ParseU64(line).value, e, a, b, items))
  {
    hide Parse, ParseI64, ParseU64, ParseItems, ReadsAll;
    HeaderFound(c, line, rest);
    if c == '*' && ParseU64(line).Some? {
      var n := ParseU64(line).value;
      if ParseItems(rest, n) == Err(e) { var a, b, items := ItemsFail(rest, n, e); }
      if a, b, items :| FailsAfter(rest, n, e, a, b, items) { FailsItems(a, b, items, n, e); }
    }
  }

  // ── As the code runs ────────────────────────────────────────────────

  lemma {:induction false} SerializeStep(items: seq<Response>, i: nat)
    requires i < |items|
    ensures SerializeAll(items[i..]) == Serialize(items[i]) + SerializeAll(items[i + 1..])
  {
    assert items[i..][1..] == items[i + 1..];
  }

  /** Serialises into an output buffer, item by item. */
  method SerializeInto(r: Response) returns (out: string)
    ensures out == Serialize(r)
    decreases r
  {
    match r
    case Okay(msg) => out := "+" + msg + CRLF;
    case Error(msg) => out := "-ERR " + msg + CRLF;
    case Integer(n) => out := ":" + ShowInt(n) + CRLF;
    case Bulk(None) => out := "$-1" + CRLF;
    case Bulk(Some(data)) => out := "$" + Decimal(|data|) + CRLF + data + CRLF;
    case Array(items) =>
      out := "*" + Decimal(|items|) + CRLF;
      var i := 0;
      assert items[0..] == items;
      while i < |items|
        invariant i <= |items| && out + SerializeAll(items[i..]) == Serialize(r)
      {
        SerializeStep(items, i);
        var item := SerializeInto(items[i]);
        Assoc(out, item, SerializeAll(items[i + 1..]));
        out := out + item;
        i := i + 1;
      }
      assert out + "" == out;
  }

  /** The items' answer, given the items parsed so far and where they ended. */
  function Resume(items: seq<Response>, offset: nat, q: Result<Parsed<seq<Response>>, ParseError>)
    : Result<Parsed<seq<Response>>, ParseError>
  {
    match q
    case Err(e) => Err(e)
    case Ok(p) => Ok(Parsed(items + p.value, offset + p.consumed))
  }

  /** Parses an array's items one after another. */
  method ParseArrayItems(s: string, count: nat) returns (r: Result<Parsed<seq<Response>>, ParseError>)
    ensures r == ParseItems(s, count)
    decreases |s|, 1
  {
    hide Parse;
    var items: seq<Response> := [];
    var offset: nat, i: nat := 0, 0;
    StartItems(s, count);
    while i < count
      invariant && i <= count && offset <= |s|
                && ParseItems(s, count) == Resume(items, offset, ParseItems(s[offset..], count - i))
    {
      if offset >= |s| {
        NoInput(count - i);
        assert s[offset..] == "";
        return Err(Incomplete);
      }
      var p := ParseResponse(s[offset..]);
      if p.Err? {
        return Err(p.error);
      }
      NextItem(s, offset, count - i, items, p.value);
      items := items + [p.value.value];
      offset := offset + p.value.consumed;
      i := i + 1;
    }
    assert items + [] == items;
    r := Ok(Parsed(items, offset));
  }

  lemma {:induction false} StartItems(s: string, count: nat)
    ensures s[0..] == s && Resume([], 0, ParseItems(s, count)) == ParseItems(s, count)
  {
    var q := ParseItems(s, count);
    assert q.Ok? ==> [] + q.value.value == q.value.value;
  }

  lemma {:induction false} NoInput(count: nat)
    requires count > 0
    ensures ParseItems("", count) == Err(Incomplete)
  {
  }

  lemma {:induction false} NextItem(s: string, offset: nat, count: nat, items: seq<Response>, p: Parsed<Response>)
    requires offset <= |s| && count > 0 && Parse(s[offset..]) == Ok(p)
    ensures offset + p.consumed <= |s|
    ensures Resume(items, offset, ParseItems(s[offset..], count))
      == Resume(items + [p.value], offset + p.consumed, ParseItems(s[offset + p.consumed..], count - 1))
  {
    hide Parse;
    assert s[offset..][p.consumed..] == s[offset + p.consumed..];
    var q := ParseItems(s[offset + p.consumed..], count - 1);
    if q.Ok? { Assoc(items, [p.value], q.value.value); }
  }

  /** Parses one response from the front of the input, by its first character. */
  method ParseResponse(s: string) returns (r: Result<Parsed<Response>, ParseError>)
    ensures r == Parse(s)
    decreases |s|, 0, 1
  {
    if s == [] {
      return Err(Incomplete);
    }
    var first := s[0];
    if first !in "+-:$*" {
      return Err(InvalidPrefix(first));
    }
    var crlf := FindCrlf(s);
    if crlf.None? {
      return Err(Incomplete);
    }
    var line, start := s[1..crlf.value], crlf.value + 2;
    if first == '+' {
      r := Ok(Parsed(Okay(line), start));
    } else if first == '-' {
      r := Ok(Parsed(Error(StripErr(line)), start));
    } else if first == ':' {
      var n := ParseI64(line);
      r := if n.None? then Err(InvalidInteger(line)) else Ok(Parsed(Integer(n.value), start));
    } else if first == '$' {
      r := ParseBulk(s, line, start);
    } else {
      var n := ParseU64(line);
      if n.None? {
        return Err(InvalidBulkLength(line));
      }
      var q := ParseArrayItems(s[start..], n.value);
      r := if q.Err? then Err(q.error) else Ok(Parsed(Array(q.value.value), start + q.value.consumed));
    }
  }

  /** Parses a bulk string once its length line has been found: a negative
      length is the null bulk, and the data and its line end must be there. */
  method ParseBulk(s: string, line: string, start: nat) returns (r: Result<Parsed<Response>, ParseError>)
    requires 3 <= start <= |s| && s[0] == '$' && line == s[1..start - 2]
    ensures r == ParseLine(s, start - 2)
  {
    var n := ParseI64(line);
    if n.None? {
      return Err(InvalidBulkLength(line));
    }
    if n.value < 0 {
      return Ok(Parsed(Bulk(None), start));
    }
    var end := start + n.value;
    if |s| < end + 2 {
      return Err(Incomplete);
    }
    r := Ok(Parsed(Bulk(Some(s[start..end])), end + 2));
  }
}
