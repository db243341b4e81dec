/**
 * `JSON.stringify` and `JSON.parse` for the values the front end keeps in
 * local storage: `null`, booleans, non-negative integers, strings, and flat
 * objects of those. Stringify writes the compact form (no whitespace) with
 * the standard escapes; parse reads that form back.
 */
module Json {
  import opened Wrappers
  import opened Text

  /** A JSON value; object members keep their order. */
  datatype Value = Null | Bool(b: bool) | Num(n: nat) | Str(s: string) | Object(members: seq<(string, Value)>)

  predicate IsScalar(v: Value) {
    !v.Object?
  }

  /** An object whose members are all scalars, or a scalar. */
  predicate Flat(v: Value) {
    v.Object? ==> forall m :: m in v.members ==> IsScalar(m.1)
  }

  // ---------------------------------------------------------------------------
  // Strings
  // ---------------------------------------------------------------------------

  function HexDigit(d: nat): (c: char)
    requires d < 16
  {
    if d < 10 then (('0' as int) + d) as char else (('a' as int) + d - 10) as char
  }

  predicate IsHex(c: char) {
    '0' <= c <= '9' || 'a' <= c <= 'f' || 'A' <= c <= 'F'
  }

  function HexValue(c: char): (d: nat)
    requires IsHex(c)
    ensures d < 16
  {
    if '0' <= c <= '9' then (c as int) - ('0' as int)
    else if 'a' <= c <= 'f' then (c as int) - ('a' as int) + 10
    else (c as int) - ('A' as int) + 10
  }

  lemma HexRoundTrip(d: nat)
    requires d < 16
    ensures IsHex(HexDigit(d)) && HexValue(HexDigit(d)) == d
  {
  }

  /** How `JSON.stringify` writes one character inside a string literal. */
  function EscapeChar(c: char): (e: string)
    ensures |e| >= 1
  {
    if c == '"' then ['\\', '"']
    else if c == '\\' then ['\\', '\\']
    else if c as int == 0x08 then ['\\', 'b']
    else if c as int == 0x0C then ['\\', 'f']
    else if c == '\n' then ['\\', 'n']
    else if c == '\r' then ['\\', 'r']
    else if c == '\t' then ['\\', 't']
    else if (c as int) < 0x20 then ['\\', 'u', '0', '0', HexDigit((c as int) / 16), HexDigit((c as int) % 16)]
    else [c]
  }

  function Escape(s: string): string {
    if s == [] then [] else EscapeChar(s[0]) + Escape(s[1..])
  }

  /** A string literal: the escaped text between double quotes. */
  function Quote(s: string): string {
    ['"'] + Escape(s) + ['"']
  }

  /** The character a one-letter escape `\x` stands for, if `x` is one. */
  function SimpleEscape(x: char): Option<char> {
    if x == '"' then Some('"')
    else if x == '\\' then Some('\\')
    else if x == '/' then Some('/')
    else if x == 'b' then Some(0x08 as char)
    else if x == 'f' then Some(0x0C as char)
    else if x == 'n' then Some('\n')
    else if x == 'r' then Some('\r')
    else if x == 't' then Some('\t')
    else None
  }

  /** The code point of four hex digits. */
  function Hex4(s: string): nat
    requires |s| == 4 && forall i :: 0 <= i < 4 ==> IsHex(s[i])
  {
    ((HexValue(s[0]) * 16 + HexValue(s[1])) * 16 + HexValue(s[2])) * 16 + HexValue(s[3])
  }

  /** Puts `c` in front of the text a successful parse produced. */
  function Cons(c: char, r: Option<(string, string)>): Option<(string, string)> {
    match r
    case None => None
    case Some((text, rest)) => Some(([c] + text, rest))
  }

  /**
   * Reads the inside of a string literal up to its closing quote; returns
   * the text and what follows the quote.
   */
  function ParseChars(s: string): (r: Option<(string, string)>)
    ensures r.Some? ==> |r.value.1| < |s|
    decreases |s|
  {
    if s == [] then None
    else if s[0] == '"' then Some(([], s[1..]))
    else if s[0] == '\\' then
      if |s| < 2 then None
      else if s[1] == 'u' then
        if |s| < 6 || !(forall i :: 2 <= i < 6 ==> IsHex(s[i])) then None
        else
          var v := Hex4(s[2..6]);
          if 0xD800 <= v < 0xE000 then None
          else Cons(v as char, ParseChars(s[6..]))
      else match SimpleEscape(s[1])
        case None => None
        case Some(c) => Cons(c, ParseChars(s[2..]))
    else if (s[0] as int) < 0x20 then None
    else Cons(s[0], ParseChars(s[1..]))
  }

  /** One escaped character is read back as itself. */
  lemma ParseEscapedChar(c: char, tail: string)
    ensures ParseChars(EscapeChar(c) + tail) == Cons(c, ParseChars(tail))
  {
    var s := EscapeChar(c) + tail;
    if c == '"' || c == '\\' || c as int == 0x08 || c as int == 0x0C || c == '\n' || c == '\r' || c == '\t' {
      assert s[2..] == tail;
    } else if (c as int) < 0x20 {
      var hi, lo := (c as int) / 16, (c as int) % 16;
      HexRoundTrip(hi);
      HexRoundTrip(lo);
      assert s[2..6] == ['0', '0', HexDigit(hi), HexDigit(lo)];
      assert Hex4(s[2..6]) == c as int;
      assert s[6..] == tail;
    } else {
      assert s[1..] == tail;
    }
  }

  /** The inside of a string literal written by `Escape` is read back as the original text. */
  lemma {:induction false} ParseEscaped(text: string, rest: string)
    ensures ParseChars(Escape(text) + ['"'] + rest) == Some((text, rest))
    decreases |text|
  {
    if text == [] {
      assert Escape(text) + ['"'] + rest == ['"'] + rest;
    } else {
      var tail := Escape(text[1..]) + ['"'] + rest;
      assert Escape(text) + ['"'] + rest == EscapeChar(text[0]) + tail;
      ParseEscapedChar(text[0], tail);
      ParseEscaped(text[1..], rest);
      assert [text[0]] + text[1..] == text;
    }
  }

  /** Reads a string literal at the start of `s`. */
  function ParseString(s: string): (r: Option<(string, string)>)
    ensures r.Some? ==> |r.value.1| < |s|
  {
    if s != [] && s[0] == '"' then ParseChars(s[1..]) else None
  }

  lemma ParseQuoted(text: string, rest: string)
    ensures ParseString(Quote(text) + rest) == Some((text, rest))
  {
    assert (Quote(text) + rest)[1..] == Escape(text) + ['"'] + rest;
    ParseEscaped(text, rest);
  }

  // ---------------------------------------------------------------------------
  // Values
  // ---------------------------------------------------------------------------

  function StringifyScalar(v: Value): string
    requires IsScalar(v)
  {
    match v
    case Null => "null"
    case Bool(b) => if b then "true" else "false"
    case Num(n) => Decimal(n)
    case Str(s) => Quote(s)
  }

  function StringifyMember(m: (string, Value)): string
    requires IsScalar(m.1)
  {
    Quote(m.0) + ":" + StringifyScalar(m.1)
  }

  /** The members of an object, comma-separated. */
  function StringifyMembers(ms: seq<(string, Value)>): string
    requires forall m :: m in ms ==> IsScalar(m.1)
  {
    if ms == [] then ""
    else if |ms| == 1 then StringifyMember(ms[0])
    else StringifyMember(ms[0]) + "," + StringifyMembers(ms[1..])
  }

  /** `JSON.stringify` of a flat value. */
  function Stringify(v: Value): string
    requires Flat(v)
  {
    if v.Object? then "{" + StringifyMembers(v.members) + "}" else StringifyScalar(v)
  }

  /** `lit` starts `s`; returns what follows it. */
  function Expect(lit: string, s: string): (r: Option<string>)
    ensures r.Some? ==> |r.value| == |s| - |lit|
  {
    if |lit| <= |s| && s[..|lit|] == lit then Some(s[|lit|..]) else None
  }

  lemma ExpectLiteral(lit: string, rest: string)
    ensures Expect(lit, lit + rest) == Some(rest)
  {
    assert (lit + rest)[..|lit|] == lit;
    assert (lit + rest)[|lit|..] == rest;
  }

  /** Reads a scalar at the start of `s`. */
  function ParseScalar(s: string): (r: Option<(Value, string)>)
    ensures r.Some? ==> IsScalar(r.value.0) && |r.value.1| < |s|
  {
    if s == [] then None
    else if s[0] == '"' then
      match ParseString(s)
      case None => None
      case Some((text, rest)) => Some((Str(text), rest))
    else if s[0] == '0' && |s| > 1 && IsDigit(s[1]) then None  // no leading zeros
    else if IsDigit(s[0]) then
      match ParseNat(s)
      case None => None
      case Some((n, rest)) => Some((Num(n), rest))
    else if Expect("true", s).Some? then Some((Bool(true), Expect("true", s).value))
    else if Expect("false", s).Some? then Some((Bool(false), Expect("false", s).value))
    else if Expect("null", s).Some? then Some((Null, Expect("null", s).value))
    else None
  }

  /** What may follow a scalar inside an object: a comma or the closing brace. */
  predicate Delimited(rest: string) {
    rest != [] && (rest[0] == ',' || rest[0] == '}')
  }

  lemma ParseScalarRoundTrip(v: Value, rest: string)
    requires IsScalar(v) && Delimited(rest)
    ensures ParseScalar(StringifyScalar(v) + rest) == Some((v, rest))
  {
    var s := StringifyScalar(v) + rest;
    match v
    case Null => ExpectLiteral("null", rest);
    case Bool(b) =>
      if b { ExpectLiteral("true", rest); } else { ExpectLiteral("false", rest); }
    case Num(n) => ParseNumRoundTrip(n, rest);
    case Str(text) => ParseQuoted(text, rest);
  }

  /** A rendered number has no leading zero, so the scalar reader takes it back whole. */
  lemma ParseNumRoundTrip(n: nat, rest: string)
    requires Delimited(rest)
    ensures ParseScalar(Decimal(n) + rest) == Some((Num(n), rest))
  {
    var d, s := Decimal(n), Decimal(n) + rest;
    ParseNatDecimal(n, rest);
    assert s[0] == d[0];
    assert !(s[0] == '0' && IsDigit(s[1])) by {
      if |d| == 1 { assert s[1] == rest[0]; } else { assert s[0] != '0'; }
    }
  }

  /** Reads `"key":scalar` at the start of `s`. */
  function ParseMember(s: string): (r: Option<((string, Value), string)>)
    ensures r.Some? ==> IsScalar(r.value.0.1) && |r.value.1| < |s|
  {
    match ParseString(s)
    case None => None
    case Some((key, afterKey)) =>
      if afterKey == [] || afterKey[0] != ':' then None
      else
        match ParseScalar(afterKey[1..])
        case None => None
        case Some((v, rest)) => Some(((key, v), rest))
  }

  lemma ParseMemberRoundTrip(m: (string, Value), rest: string)
    requires IsScalar(m.1) && Delimited(rest)
    ensures ParseMember(StringifyMember(m) + rest) == Some((m, rest))
  {
    var afterKey := ":" + StringifyScalar(m.1) + rest;
    assert StringifyMember(m) + rest == Quote(m.0) + afterKey;
    ParseQuoted(m.0, afterKey);
    assert afterKey[1..] == StringifyScalar(m.1) + rest;
    ParseScalarRoundTrip(m.1, rest);
  }

  /** Reads one or more comma-separated members and the closing brace. */
  function ParseMembers(s: string): (r: Option<(seq<(string, Value)>, string)>)
    ensures r.Some? ==> (forall m :: m in r.value.0 ==> IsScalar(m.1)) && |r.value.1| < |s|
    decreases |s|
  {
    match ParseMember(s)
    case None => None
    case Some((m, rest)) =>
      if rest != [] && rest[0] == '}' then Some(([m], rest[1..]))
      else if rest != [] && rest[0] == ',' then
        match ParseMembers(rest[1..])
        case None => None
        case Some((ms, after)) => Some(([m] + ms, after))
      else None
  }

  /** One step of `ParseMembers`: what it gives once the first member is read. */
  lemma ParseMembersStep(s: string, m: (string, Value), after: string)
    requires ParseMember(s) == Some((m, after))
    ensures after != [] && after[0] == '}' ==> ParseMembers(s) == Some(([m], after[1..]))
    ensures after != [] && after[0] == ',' ==>
              ParseMembers(s) == match ParseMembers(after[1..])
                                 case None => None
                                 case Some((ms, rest)) => Some(([m] + ms, rest))
  {
  }

  /** The text of some members, then the closing brace, then `rest`. */
  function MembersThen(ms: seq<(string, Value)>, rest: string): string
    requires forall m :: m in ms ==> IsScalar(m.1)
  {
    StringifyMembers(ms) + ("}" + rest)
  }

  /** A member is written starting with its key's opening quote. */
  lemma StringifyMemberStartsWithQuote(m: (string, Value))
    requires IsScalar(m.1)
    ensures StringifyMember(m) != [] && StringifyMember(m)[0] == '"'
  {
    assert StringifyMember(m) == ['"'] + (Escape(m.0) + ['"'] + ":" + StringifyScalar(m.1));
  }

  lemma Associate(a: string, b: string, c: string)
    ensures a + b + c == a + (b + c)
  {
  }

  /** Every member after the first is a scalar too. */
  lemma ScalarMembers(ms: seq<(string, Value)>)
    requires ms != [] && forall m :: m in ms ==> IsScalar(m.1)
    ensures IsScalar(ms[0].1) && forall x :: x in ms[1..] ==> IsScalar(x.1)
  {
    assert ms[0] in ms;
    forall x | x in ms[1..] ensures IsScalar(x.1) { assert x in ms; }
  }

  /** A single member is followed by the closing brace. */
  lemma MembersThenOne(ms: seq<(string, Value)>, rest: string)
    requires |ms| == 1 && forall m :: m in ms ==> IsScalar(m.1)
    ensures MembersThen(ms, rest) == StringifyMember(ms[0]) + ("}" + rest)
  {
    assert ms[0] in ms;
  }

  /** The first of several members is followed by a comma and the text of the others. */
  lemma MembersThenMore(ms: seq<(string, Value)>, rest: string)
    requires |ms| > 1 && forall m :: m in ms ==> IsScalar(m.1)
    requires IsScalar(ms[0].1) && forall x :: x in ms[1..] ==> IsScalar(x.1)
    ensures MembersThen(ms, rest) == StringifyMember(ms[0]) + ("," + MembersThen(ms[1..], rest))
  {
    var first, more, tail := StringifyMember(ms[0]), StringifyMembers(ms[1..]), "}" + rest;
    assert StringifyMembers(ms) == first + "," + more;
    Associate(first, ",", more);
    Associate(first, "," + more, tail);
    Associate(",", more, tail);
  }

  /** The text of a non-empty member list begins with a quote. */
  lemma MembersThenStartsWithQuote(ms: seq<(string, Value)>, rest: string)
    requires ms != [] && forall m :: m in ms ==> IsScalar(m.1)
    ensures MembersThen(ms, rest) != [] && MembersThen(ms, rest)[0] == '"'
  {
    ScalarMembers(ms);
    StringifyMemberStartsWithQuote(ms[0]);
    if |ms| == 1 {
      MembersThenOne(ms, rest);
    } else {
      MembersThenMore(ms, rest);
    }
  }

  /** A last member, then the closing brace, is read as a one-member list. */
  lemma ParseLastMember(m: (string, Value), rest: string)
    requires IsScalar(m.1)
    ensures ParseMembers(StringifyMember(m) + ("}" + rest)) == Some(([m], rest))
  {
    ParseMemberRoundTrip(m, "}" + rest);
    ParseMembersStep(StringifyMember(m) + ("}" + rest), m, "}" + rest);
    assert ("}" + rest)[1..] == rest;
  }

  /** A member, then a comma, then a readable member list, is read as the longer list. */
  lemma ParseNextMember(m: (string, Value), t: string, ms: seq<(string, Value)>, rest: string)
    requires IsScalar(m.1) && t != [] && t[0] == '"'
    requires ParseMembers(t) == Some((ms, rest))
    ensures ParseMembers(StringifyMember(m) + ("," + t)) == Some(([m] + ms, rest))
  {
    ParseMemberRoundTrip(m, "," + t);
    ParseMembersStep(StringifyMember(m) + ("," + t), m, "," + t);
    assert ("," + t)[1..] == t;
  }

  /** The members of a flat object, written and read back, in order. */
  lemma {:induction false} ParseMembersRoundTrip(ms: seq<(string, Value)>, rest: string)
    requires ms != [] && forall m :: m in ms ==> IsScalar(m.1)
    ensures ParseMembers(MembersThen(ms, rest)) == Some((ms, rest))
    decreases |ms|
  {
    ScalarMembers(ms);
    if |ms| == 1 {
      MembersThenOne(ms, rest);
      ParseLastMember(ms[0], rest);
      assert [ms[0]] == ms;
    } else {
      ParseMembersRoundTrip(ms[1..], rest);
      MembersThenMore(ms, rest);
      MembersThenStartsWithQuote(ms[1..], rest);
      ParseNextMember(ms[0], MembersThen(ms[1..], rest), ms[1..], rest);
      assert [ms[0]] + ms[1..] == ms;
    }
  }

  /**
   * `JSON.parse`: the value `s` spells, with nothing after it; None where
   * `JSON.parse` would throw a syntax error.
   */
  function Parse(s: string): (r: Option<Value>)
    ensures r.Some? ==> Flat(r.value)
    ensures |s| > 1 && s[0] == '0' && IsDigit(s[1]) ==> r.None?
  {
    if s != [] && s[0] == '{' then
      if s == "{}" then Some(Object([]))
      else
        match ParseMembers(s[1..])
        case Some((ms, rest)) => if rest == [] then Some(Object(ms)) else None
        case None => None
    else
      match ParseScalar(s)
      case Some((v, rest)) => if rest == [] then Some(v) else None
      case None => None
  }

  /** A non-empty flat object, written and read back. */
  lemma ParseObject(ms: seq<(string, Value)>)
    requires ms != [] && forall m :: m in ms ==> IsScalar(m.1)
    ensures Parse("{" + MembersThen(ms, [])) == Some(Object(ms))
  {
    var body := MembersThen(ms, []);
    var s := "{" + body;
    MembersThenStartsWithQuote(ms, []);
    ParseMembersRoundTrip(ms, []);
    assert s[1..] == body;
    assert s[1] == '"';
  }

  /** Parsing what stringify wrote gives back the value. */
  lemma ParseStringify(v: Value)
    requires Flat(v)
    ensures Parse(Stringify(v)) == Some(v)
  {
    if v.Object? {
      if v.members == [] {
        assert Stringify(v) == "{}";
      } else {
        assert Stringify(v) == "{" + MembersThen(v.members, []);
        ParseObject(v.members);
      }
    } else {
      ParseScalarEndOfInput(v);
    }
  }

  /** A scalar stringified on its own is read back when nothing follows it. */
  lemma ParseScalarEndOfInput(v: Value)
    requires IsScalar(v)
    ensures Parse(StringifyScalar(v)) == Some(v)
  {
    var s := StringifyScalar(v);
    assert s + [] == s;
    match v
    case Null => ExpectLiteral("null", []);
    case Bool(b) =>
      if b { ExpectLiteral("true", []); } else { ExpectLiteral("false", []); }
    case Num(n) => ParseNatDecimal(n, []);
    case Str(text) => ParseQuoted(text, []);
  }

  /** Stringify is one-to-one: different values are written differently. */
  lemma StringifyInjective(v: Value, w: Value)
    requires Flat(v) && Flat(w)
    ensures Stringify(v) == Stringify(w) <==> v == w
  {
    if Stringify(v) == Stringify(w) {
      ParseStringify(v);
      ParseStringify(w);
    }
  }
}
