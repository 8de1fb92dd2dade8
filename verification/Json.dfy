/** The part of Go's encoding/json that the job envelope and the settings reader depend on:
    string escaping as json.Marshal writes it, and a parser for the whole JSON grammar
    (section 7 of RFC 8259 for strings) that yields the members of an object with the raw
    text of every value.  Text is a sequence of Unicode scalar values. */
module Json {
  import opened Option

  const NUL := '\0'

  // ---------------------------------------------------------------- writing strings

  function HexDigit(n: nat): char
    requires n < 16
  {
    if n < 10 then ('0' as int + n) as char else ('a' as int + n - 10) as char
  }

  function Hex4(n: nat): string
    requires n < 0x10000
  {
    [HexDigit(n / 16 / 16 / 16), HexDigit(n / 16 / 16 % 16), HexDigit(n / 16 % 16), HexDigit(n % 16)]
  }

  function EscapeChar(c: char): string {
    if c == '\"' then "\\\""
    else if c == '\\' then "\\\\"
    else if c as int == 8 then "\\b"
    else if c as int == 12 then "\\f"
    else if c == '\n' then "\\n"
    else if c == '\r' then "\\r"
    else if c == '\t' then "\\t"
    else if c as int < 32 || c == '<' || c == '>' || c == '&' || c as int == 0x2028 || c as int == 0x2029 then
      "\\u" + Hex4(c as int)
    else [c]
  }

  function Escape(s: string): string {
    if s == "" then "" else EscapeChar(s[0]) + Escape(s[1..])
  }

  function Quote(s: string): string {
    "\"" + Escape(s) + "\""
  }

  /** The object json.Marshal writes for a struct: its members in declaration order. */
  function WriteObject(list: seq<Member>): string {
    "{" + WriteMembers(list) + "}"
  }

  function WriteMembers(list: seq<Member>): string {
    if list == [] then ""
    else if |list| == 1 then WritePair(list[0])
    else WritePair(list[0]) + "," + WriteMembers(list[1..])
  }

  function WritePair(m: Member): string {
    Quote(m.key) + ":" + m.raw
  }

  // ---------------------------------------------------------------- reading strings

  function HexValue(c: char): int {
    if '0' <= c <= '9' then c as int - '0' as int
    else if 'a' <= c <= 'f' then c as int - 'a' as int + 10
    else if 'A' <= c <= 'F' then c as int - 'A' as int + 10
    else -1
  }

  /** The code unit spelt by the first four characters, or -1 when they are not hex digits. */
  function CodeUnit(s: string): (n: int)
    ensures -1 <= n < 0x10000
    ensures n != -1 ==> |s| >= 4
  {
    if |s| >= 4 && HexValue(s[0]) >= 0 && HexValue(s[1]) >= 0 && HexValue(s[2]) >= 0 && HexValue(s[3]) >= 0 then
      ((HexValue(s[0]) * 16 + HexValue(s[1])) * 16 + HexValue(s[2])) * 16 + HexValue(s[3])
    else -1
  }

  /** The code unit of an escape \uXXXX at the front of s, or -1. */
  function UnicodeEscape(s: string): (n: int)
    ensures -1 <= n < 0x10000
    ensures n != -1 ==> |s| >= 6
  {
    if |s| >= 2 && s[0] == '\\' && s[1] == 'u' then CodeUnit(s[2..]) else -1
  }

  /** One decoded character of a string literal and the number of characters it was spelt with. */
  datatype Spelling = Malformed | Spelling(c: char, width: nat)

  const REPLACEMENT: char := '\U{FFFD}'

  function SpelledUnicode(s: string): (r: Spelling)
    ensures r.Spelling? ==> 0 < r.width <= |s| && NUL !in s[..r.width]
  {
    var u := UnicodeEscape(s);
    if u == -1 then Malformed
    else if u < 0xD800 || u >= 0xE000 then Spelling(u as char, 6)
    else
      var low := UnicodeEscape(s[6..]);
      if u < 0xDC00 && 0xDC00 <= low < 0xE000 then
        Spelling((0x10000 + (u - 0xD800) * 0x400 + (low - 0xDC00)) as char, 12)
      else Spelling(REPLACEMENT, 6)
  }

  function NextChar(s: string): (r: Spelling)
    requires s != ""
    ensures r.Spelling? ==> 0 < r.width <= |s| && NUL !in s[..r.width]
  {
    if s[0] as int < 32 then Malformed
    else if s[0] != '\\' then Spelling(s[0], 1)
    else if |s| < 2 then Malformed
    else match s[1]
      case '\"' => Spelling('\"', 2)
      case '\\' => Spelling('\\', 2)
      case '/' => Spelling('/', 2)
      case 'b' => Spelling(8 as char, 2)
      case 'f' => Spelling(12 as char, 2)
      case 'n' => Spelling('\n', 2)
      case 'r' => Spelling('\r', 2)
      case 't' => Spelling('\t', 2)
      case 'u' => SpelledUnicode(s)
      case _ => Malformed
  }

  /** A NUL has been consumed from s exactly when it is missing from the rest r. */
  predicate SameNul(s: string, r: string) { (NUL in s) == (NUL in r) }

  datatype Text = BadText | Text(value: string, rest: string)

  /** Reads a string literal whose opening quote has been consumed. */
  function ParseChars(s: string): (r: Text)
    ensures r.Text? ==> |r.rest| < |s| && SameNul(s, r.rest)
    decreases |s|
  {
    if s == "" then BadText
    else if s[0] == '\"' then Text("", s[1..])
    else match NextChar(s)
      case Malformed => BadText
      case Spelling(c, w) =>
        assert s == s[..w] + s[w..];
        match ParseChars(s[w..])
        case BadText => BadText
        case Text(v, rest) => Text([c] + v, rest)
  }

  // ---------------------------------------------------------------- the rest of the grammar

  predicate IsSpace(c: char) { c == ' ' || c == '\t' || c == '\r' || c == '\n' }

  function SkipSpace(s: string): (r: string)
    ensures |r| <= |s| && SameNul(s, r)
  {
    if s != "" && IsSpace(s[0]) then SkipSpace(s[1..]) else s
  }

  predicate IsDigit(c: char) { '0' <= c <= '9' }

  predicate NumberChar(c: char) { IsDigit(c) || c == '.' || c == 'e' || c == 'E' || c == '+' || c == '-' }

  function DropDigits(s: string): (r: string)
    ensures |r| <= |s| && SameNul(s, r)
  {
    if s != "" && IsDigit(s[0]) then DropDigits(s[1..]) else s
  }

  function SkipSign(s: string): (r: string)
    ensures |r| <= |s| && SameNul(s, r)
  {
    if s != "" && (s[0] == '+' || s[0] == '-') then s[1..] else s
  }

  /** Drops a run of at least one digit. */
  function SkipDigits(s: string): (r: Option<string>)
    ensures r.Some? ==> |r.value| < |s| && SameNul(s, r.value)
  {
    if s != "" && IsDigit(s[0]) then Some(DropDigits(s[1..])) else None
  }

  function SkipInteger(s: string): (r: Option<string>)
    ensures r.Some? ==> |r.value| < |s| && SameNul(s, r.value)
  {
    if s != "" && s[0] == '0' then Some(s[1..]) else SkipDigits(s)
  }

  function SkipFraction(s: string): (r: Option<string>)
    ensures r.Some? ==> |r.value| <= |s| && SameNul(s, r.value)
  {
    if s != "" && s[0] == '.' then SkipDigits(s[1..]) else Some(s)
  }

  function SkipExponent(s: string): (r: Option<string>)
    ensures r.Some? ==> |r.value| <= |s| && SameNul(s, r.value)
  {
    if s != "" && (s[0] == 'e' || s[0] == 'E') then SkipDigits(SkipSign(s[1..])) else Some(s)
  }

  function SkipNumber(s: string): (r: Option<string>)
    ensures r.Some? ==> |r.value| < |s| && SameNul(s, r.value)
  {
    match SkipInteger(if s != "" && s[0] == '-' then s[1..] else s)
    case None => None
    case Some(b) =>
      match SkipFraction(b)
      case None => None
      case Some(c) => SkipExponent(c)
  }

  function SkipLiteral(s: string, word: string): (r: Option<string>)
    requires word != "" && NUL !in word
    ensures r.Some? ==> |r.value| < |s| && SameNul(s, r.value)
  {
    if word <= s then
      assert s == word + s[|word|..];
      Some(s[|word|..])
    else None
  }

  /** One member of an object: its decoded key and the exact text of its value. */
  datatype Member = Member(key: string, raw: string)

  datatype Members = BadMembers | Members(list: seq<Member>, rest: string)

  /** What is left after the JSON value at the front of s, or None when there is none there. */
  function SkipValue(s: string): (r: Option<string>)
    ensures r.Some? ==> |r.value| < |s| && SameNul(s, r.value)
    decreases |s|, 0
  {
    if s == "" then None
    else if s[0] == '\"' then
      (match ParseChars(s[1..]) case BadText => None case Text(_, rest) => Some(rest))
    else if s[0] == '{' then
      (match ParseObject(s[1..]) case BadMembers => None case Members(_, rest) => Some(rest))
    else if s[0] == '[' then SkipArray(s[1..])
    else if s[0] == 't' then SkipLiteral(s, "true")
    else if s[0] == 'f' then SkipLiteral(s, "false")
    else if s[0] == 'n' then SkipLiteral(s, "null")
    else SkipNumber(s)
  }

  /** Reads an array whose opening bracket has been consumed. */
  function SkipArray(s: string): (r: Option<string>)
    ensures r.Some? ==> |r.value| < |s| && SameNul(s, r.value)
    decreases |s|, 2
  {
    var t := SkipSpace(s);
    if t != "" && t[0] == ']' then Some(t[1..]) else SkipElements(t)
  }

  function SkipElements(s: string): (r: Option<string>)
    ensures r.Some? ==> |r.value| < |s| && SameNul(s, r.value)
    decreases |s|, 1
  {
    match SkipValue(s)
    case None => None
    case Some(v) => SkipMoreElements(SkipSpace(v))
  }

  function SkipMoreElements(s: string): (r: Option<string>)
    ensures r.Some? ==> |r.value| < |s| && SameNul(s, r.value)
    decreases |s|, 0
  {
    if s == "" then None
    else if s[0] == ']' then Some(s[1..])
    else if s[0] == ',' then SkipElements(SkipSpace(s[1..]))
    else None
  }

  /** Reads an object whose opening brace has been consumed. */
  function ParseObject(s: string): (r: Members)
    ensures r.Members? ==> |r.rest| < |s| && SameNul(s, r.rest)
    decreases |s|, 2
  {
    var t := SkipSpace(s);
    if t != "" && t[0] == '}' then Members([], t[1..]) else ParseMembers(t)
  }

  /** One "key":value pair and what is left after it. */
  datatype Pair = BadPair | Pair(member: Member, rest: string)

  function SkipColon(s: string): (r: Option<string>)
    ensures r.Some? ==> |r.value| < |s| && SameNul(s, r.value)
  {
    var t := SkipSpace(s);
    if t != "" && t[0] == ':' then Some(SkipSpace(t[1..])) else None
  }

  function ParsePair(s: string): (r: Pair)
    ensures r.Pair? ==> |r.rest| < |s| && SameNul(s, r.rest)
    decreases |s|, 0
  {
    if s == "" || s[0] != '\"' then BadPair
    else match ParseChars(s[1..])
      case BadText => BadPair
      case Text(key, k) =>
        match SkipColon(k)
        case None => BadPair
        case Some(v) =>
          match SkipValue(v)
          case None => BadPair
          case Some(rest) => Pair(Member(key, v[..|v| - |rest|]), rest)
  }

  function ParseMembers(s: string): (r: Members)
    ensures r.Members? ==> |r.rest| < |s| && SameNul(s, r.rest)
    decreases |s|, 1
  {
    match ParsePair(s)
    case BadPair => BadMembers
    case Pair(m, rest) =>
      match ParseMoreMembers(SkipSpace(rest))
      case BadMembers => BadMembers
      case Members(list, rest') => Members([m] + list, rest')
  }

  function ParseMoreMembers(s: string): (r: Members)
    ensures r.Members? ==> |r.rest| < |s| && SameNul(s, r.rest)
    decreases |s|, 0
  {
    if s == "" then BadMembers
    else if s[0] == '}' then Members([], s[1..])
    else if s[0] == ',' then ParseMembers(SkipSpace(s[1..]))
    else BadMembers
  }

  /** s is exactly one JSON value, with no white space around it. */
  predicate IsValue(s: string)
    ensures IsValue(s) ==> s != "" && NUL !in s
  {
    SkipValue(s) == Some("")
  }

  /** text is one JSON value with white space around it. */
  predicate IsJson(text: string) {
    var rest := SkipValue(SkipSpace(text));
    rest.Some? && SkipSpace(rest.value) == ""
  }

  predicate AllSpace(s: string) {
    forall c :: c in s ==> IsSpace(c)
  }

  lemma {:induction false} SpaceSkipped(w: string, s: string)
    requires AllSpace(w) && (s == "" || !IsSpace(s[0]))
    ensures SkipSpace(w + s) == s
    decreases |w|
  {
    if w == "" {
      assert w + s == s;
    } else {
      SpaceSkipped(w[1..], s);
      assert (w + s)[1..] == w[1..] + s;
      assert w[0] in w;
    }
  }

  // ---------------------------------------------------------------- a parser undoes the writer

  lemma HexDigitReadsBack(n: nat)
    requires n < 16
    ensures HexValue(HexDigit(n)) == n
  {}

  lemma HexDigits(n: nat)
    requires n < 0x10000
    ensures CodeUnit(Hex4(n)) == n
  {
    var q := n / 16;
    HexDigitReadsBack(q / 16 / 16);
    HexDigitReadsBack(q / 16 % 16);
    HexDigitReadsBack(q % 16);
    HexDigitReadsBack(n % 16);
  }

  lemma EscapedCharReadsBack(c: char, u: string)
    ensures EscapeChar(c) != "" && EscapeChar(c)[0] != '\"'
    ensures NextChar(EscapeChar(c) + u) == Spelling(c, |EscapeChar(c)|)
  {
    var e := EscapeChar(c);
    if |e| == 6 {
      HexDigits(c as int);
      assert (e + u)[2..][..4] == Hex4(c as int);
      assert CodeUnit((e + u)[2..]) == CodeUnit(Hex4(c as int));
    }
  }

  lemma OneMoreChar(e: string, u: string, c: char)
    requires e != "" && e[0] != '\"' && NextChar(e + u) == Spelling(c, |e|) && ParseChars(u).Text?
    ensures ParseChars(e + u) == Text([c] + ParseChars(u).value, ParseChars(u).rest)
  {
    assert (e + u)[|e|..] == u;
  }

  lemma OneMoreQuoted(c: char, x: string, v: string, t: string)
    requires ParseChars(x + "\"" + t) == Text(v, t)
    ensures ParseChars(EscapeChar(c) + x + "\"" + t) == Text([c] + v, t)
  {
    hide EscapeChar, NextChar, ParseChars;
    var u := x + "\"" + t;
    EscapedCharReadsBack(c, u);
    OneMoreChar(EscapeChar(c), u, c);
    assert EscapeChar(c) + x + "\"" + t == EscapeChar(c) + u;
  }

  /** Every string survives json.Marshal followed by json.Unmarshal, whatever text follows it. */
  lemma {:induction false} QuotedReadsBack(s: string, t: string)
    ensures ParseChars(Escape(s) + "\"" + t) == Text(s, t)
  {
    if s == "" {
      assert Escape(s) + "\"" + t == "\"" + t;
      assert ("\"" + t)[1..] == t;
    } else {
      QuotedReadsBack(s[1..], t);
      OneMoreQuoted(s[0], Escape(s[1..]), s[1..], t);
      assert [s[0]] + s[1..] == s;
    }
  }

  /** No control character, angle bracket, ampersand, line or paragraph separator. */
  predicate Plain(c: char) {
    c as int >= 32 && c !in {'<', '>', '&'} && c as int != 0x2028 && c as int != 0x2029
  }

  lemma HexIsPlain(n: nat)
    requires n < 0x10000
    ensures forall c :: c in Hex4(n) ==> Plain(c)
  {
    assert forall d :: 0 <= d < 16 ==> Plain(HexDigit(d));
  }

  lemma EscapeIsPlain(c: char)
    ensures forall x :: x in EscapeChar(c) ==> Plain(x)
  {
    hide Hex4;
    if c as int < 0x10000 {
      HexIsPlain(c as int);
    }
  }

  /** Escaped text is safe to put between quotes and into HTML. */
  lemma {:induction false} EscapedIsPlain(s: string)
    ensures forall c :: c in Escape(s) ==> Plain(c)
    decreases |s|
  {
    hide EscapeChar, Plain;
    if s == "" {
    } else {
      EscapeIsPlain(s[0]);
      EscapedIsPlain(s[1..]);
    }
  }

  // ---------------------------------------------------------------- values do not see what follows them

  /** r is the rest left by a value and t the text put after it: a number at the very end of its
      text must not be continued by t. */
  predicate Ended(r: string, t: string) {
    r != "" || t == "" || !NumberChar(t[0])
  }

  lemma {:induction false} SpaceExtends(s: string, t: string)
    requires SkipSpace(s) != ""
    ensures SkipSpace(s + t) == SkipSpace(s) + t
  {
    if IsSpace(s[0]) {
      assert (s + t)[1..] == s[1..] + t;
      SpaceExtends(s[1..], t);
    }
  }

  lemma {:induction false} DigitsExtend(s: string, t: string)
    requires Ended(DropDigits(s), t)
    ensures DropDigits(s + t) == DropDigits(s) + t
  {
    if s == "" {
      assert s + t == t;
    } else if IsDigit(s[0]) {
      assert (s + t)[1..] == s[1..] + t;
      DigitsExtend(s[1..], t);
    }
  }

  lemma SkipDigitsExtends(s: string, t: string)
    requires SkipDigits(s).Some? && Ended(SkipDigits(s).value, t)
    ensures SkipDigits(s + t) == Some(SkipDigits(s).value + t)
  {
    assert (s + t)[1..] == s[1..] + t;
    DigitsExtend(s[1..], t);
  }

  lemma IntegerExtends(s: string, t: string)
    requires SkipInteger(s).Some? && Ended(SkipInteger(s).value, t)
    ensures SkipInteger(s + t) == Some(SkipInteger(s).value + t)
  {
    if s[0] == '0' {
      assert (s + t)[1..] == s[1..] + t;
    } else {
      SkipDigitsExtends(s, t);
    }
  }

  lemma FractionExtends(s: string, t: string)
    requires SkipFraction(s).Some? && Ended(SkipFraction(s).value, t)
    ensures SkipFraction(s + t) == Some(SkipFraction(s).value + t)
    ensures Ended(s, t)
  {
    if s == "" {
      assert s + t == t;
    } else if s[0] == '.' {
      assert (s + t)[1..] == s[1..] + t;
      SkipDigitsExtends(s[1..], t);
    }
  }

  lemma SignExtends(s: string, t: string)
    requires s != ""
    ensures SkipSign(s + t) == SkipSign(s) + t
  {
    assert (s + t)[1..] == s[1..] + t;
  }

  lemma ExponentExtends(s: string, t: string)
    requires SkipExponent(s).Some? && Ended(SkipExponent(s).value, t)
    ensures SkipExponent(s + t) == Some(SkipExponent(s).value + t)
    ensures Ended(s, t)
  {
    if s == "" {
      assert s + t == t;
    } else if s[0] == 'e' || s[0] == 'E' {
      var d := s[1..];
      assert (s + t)[1..] == d + t;
      SignExtends(d, t);
      SkipDigitsExtends(SkipSign(d), t);
    }
  }

  lemma NumberExtends(s: string, t: string)
    requires SkipNumber(s).Some? && Ended(SkipNumber(s).value, t)
    ensures SkipNumber(s + t) == Some(SkipNumber(s).value + t)
  {
    var a := if s != "" && s[0] == '-' then s[1..] else s;
    assert (if s + t != "" && (s + t)[0] == '-' then (s + t)[1..] else s + t) == a + t;
    var b := SkipInteger(a).value;
    var c := SkipFraction(b).value;
    ExponentExtends(c, t);
    FractionExtends(b, t);
    IntegerExtends(a, t);
  }

  lemma UnicodeEscapeExtends(s: string, t: string)
    requires |s| >= 6
    ensures UnicodeEscape(s + t) == UnicodeEscape(s)
  {
    assert forall i :: 0 <= i < 6 ==> (s + t)[i] == s[i];
  }

  /** The look-ahead for a second surrogate never reaches past the closing quote. */
  lemma LookAheadExtends(s: string, t: string)
    requires ParseChars(s).Text?
    ensures UnicodeEscape(s + t) == UnicodeEscape(s)
  {
    if s[0] == '\\' && s[1] == 'u' {
      assert SpelledUnicode(s).Spelling?;
      UnicodeEscapeExtends(s, t);
    }
  }

  lemma NextCharExtends(s: string, t: string)
    requires s != "" && NextChar(s).Spelling?
    requires ParseChars(s[NextChar(s).width..]).Text?
    ensures NextChar(s + t) == NextChar(s)
  {
    hide UnicodeEscape, ParseChars;
    if s[0] == '\\' && s[1] == 'u' {
      var after := s[6..];
      assert (s + t)[6..] == after + t;
      UnicodeEscapeExtends(s, t);
      if NextChar(s).width == 12 {
        UnicodeEscapeExtends(after, t);
      } else {
        LookAheadExtends(after, t);
      }
    }
  }

  lemma {:induction false} CharsExtend(s: string, t: string)
    requires ParseChars(s).Text?
    ensures ParseChars(s + t) == Text(ParseChars(s).value, ParseChars(s).rest + t)
    decreases |s|
  {
    hide NextChar;
    if s[0] == '\"' {
      assert (s + t)[1..] == s[1..] + t;
    } else {
      var w := NextChar(s).width;
      NextCharExtends(s, t);
      CharsExtend(s[w..], t);
      assert (s + t)[w..] == s[w..] + t;
    }
  }

  lemma LiteralExtends(s: string, word: string, t: string)
    requires word != "" && NUL !in word && SkipLiteral(s, word).Some?
    ensures SkipLiteral(s + t, word) == Some(SkipLiteral(s, word).value + t)
  {
    assert (s + t)[|word|..] == s[|word|..] + t;
  }

  lemma {:induction false} ValueExtends(s: string, t: string)
    requires SkipValue(s).Some? && Ended(SkipValue(s).value, t)
    ensures SkipValue(s + t) == Some(SkipValue(s).value + t)
    decreases |s|, 0
  {
    hide ParseChars, ParseObject, SkipArray, SkipLiteral, SkipNumber;
    assert (s + t)[1..] == s[1..] + t;
    if s[0] == '\"' {
      CharsExtend(s[1..], t);
    } else if s[0] == '{' {
      ObjectExtends(s[1..], t);
    } else if s[0] == '[' {
      ArrayExtends(s[1..], t);
    } else if s[0] == 't' {
      LiteralExtends(s, "true", t);
    } else if s[0] == 'f' {
      LiteralExtends(s, "false", t);
    } else if s[0] == 'n' {
      LiteralExtends(s, "null", t);
    } else {
      NumberExtends(s, t);
    }
  }

  lemma {:induction false} ArrayExtends(s: string, t: string)
    requires SkipArray(s).Some?
    ensures SkipArray(s + t) == Some(SkipArray(s).value + t)
    decreases |s|, 2
  {
    var u := SkipSpace(s);
    assert u != "";
    SpaceExtends(s, t);
    assert (u + t)[1..] == u[1..] + t;
    if u[0] != ']' {
      ElementsExtend(u, t);
    }
  }

  lemma {:induction false} ElementsExtend(s: string, t: string)
    requires SkipElements(s).Some?
    ensures SkipElements(s + t) == Some(SkipElements(s).value + t)
    decreases |s|, 1
  {
    var v := SkipValue(s).value;
    ValueExtends(s, t);
    SpaceExtends(v, t);
    MoreElementsExtend(SkipSpace(v), t);
  }

  lemma {:induction false} MoreElementsExtend(s: string, t: string)
    requires SkipMoreElements(s).Some?
    ensures SkipMoreElements(s + t) == Some(SkipMoreElements(s).value + t)
    decreases |s|, 0
  {
    assert (s + t)[1..] == s[1..] + t;
    if s[0] == ',' {
      SpaceExtends(s[1..], t);
      ElementsExtend(SkipSpace(s[1..]), t);
    }
  }

  lemma {:induction false} ObjectExtends(s: string, t: string)
    requires ParseObject(s).Members?
    ensures ParseObject(s + t) == Members(ParseObject(s).list, ParseObject(s).rest + t)
    decreases |s|, 2
  {
    var u := SkipSpace(s);
    assert u != "";
    SpaceExtends(s, t);
    assert (u + t)[1..] == u[1..] + t;
    if u[0] != '}' {
      MembersExtend(u, t);
    }
  }

  lemma ColonExtends(s: string, t: string)
    requires SkipColon(s).Some? && SkipColon(s).value != ""
    ensures SkipColon(s + t) == Some(SkipColon(s).value + t)
  {
    var u := SkipSpace(s);
    SpaceExtends(s, t);
    assert (u + t)[1..] == u[1..] + t;
    SpaceExtends(u[1..], t);
  }

  lemma {:induction false} PairExtends(s: string, t: string)
    requires ParsePair(s).Pair? && ParsePair(s).rest != ""
    ensures ParsePair(s + t) == Pair(ParsePair(s).member, ParsePair(s).rest + t)
    decreases |s|, 0
  {
    assert (s + t)[1..] == s[1..] + t;
    CharsExtend(s[1..], t);
    var k := ParseChars(s[1..]).rest;
    var v := SkipColon(k).value;
    ColonExtends(k, t);
    var rest := SkipValue(v).value;
    ValueExtends(v, t);
    assert (v + t)[..|v + t| - |rest + t|] == v[..|v| - |rest|];
  }

  lemma {:induction false} MembersExtend(s: string, t: string)
    requires ParseMembers(s).Members?
    ensures ParseMembers(s + t) == Members(ParseMembers(s).list, ParseMembers(s).rest + t)
    decreases |s|, 1
  {
    var rest := ParsePair(s).rest;
    PairExtends(s, t);
    SpaceExtends(rest, t);
    MoreMembersExtend(SkipSpace(rest), t);
  }

  lemma {:induction false} MoreMembersExtend(s: string, t: string)
    requires ParseMoreMembers(s).Members?
    ensures ParseMoreMembers(s + t) == Members(ParseMoreMembers(s).list, ParseMoreMembers(s).rest + t)
    decreases |s|, 0
  {
    assert (s + t)[1..] == s[1..] + t;
    if s[0] == ',' {
      SpaceExtends(s[1..], t);
      MembersExtend(SkipSpace(s[1..]), t);
    }
  }

  // ---------------------------------------------------------------- written objects read back

  lemma QuoteIsValue(s: string)
    ensures IsValue(Quote(s))
  {
    QuotedReadsBack(s, "");
    assert Quote(s)[1..] == Escape(s) + "\"" + "";
  }

  /** A value keeps its extent inside an object, where a comma or a brace follows it. */
  lemma ValueInContext(raw: string, t: string)
    requires IsValue(raw) && t != "" && (t[0] == ',' || t[0] == '}')
    ensures SkipValue(raw + t) == Some(t)
    ensures !IsSpace(raw[0])
  {
    ValueExtends(raw, t);
    assert "" + t == t;
  }

  lemma PairReadsBack(m: Member, t: string)
    requires IsValue(m.raw) && t != "" && (t[0] == ',' || t[0] == '}')
    ensures ParsePair(WritePair(m) + t) == Pair(m, t)
  {
    hide SkipValue, ParseChars, Escape;
    var v := m.raw + t;
    var s := WritePair(m) + t;
    assert s[1..] == Escape(m.key) + "\"" + (":" + v);
    QuotedReadsBack(m.key, ":" + v);
    ValueInContext(m.raw, t);
    assert (":" + v)[1..] == v;
    assert SkipColon(":" + v) == Some(v);
    assert v[..|v| - |t|] == m.raw;
  }

  lemma LastMember(p: string, m: Member, t: string)
    requires ParsePair(p + ("}" + t)) == Pair(m, "}" + t)
    ensures ParseMembers(p + "}" + t) == Members([m], t)
  {
    hide ParsePair;
    assert p + "}" + t == p + ("}" + t);
    assert ("}" + t)[1..] == t;
    assert ParseMoreMembers("}" + t) == Members([], t);
    assert [m] + [] == [m];
  }

  lemma OneMoreMember(p: string, m: Member, w: string, t: string)
    requires w != "" && w[0] == '\"' && ParseMembers(w + "}" + t).Members?
    requires ParsePair(p + ("," + (w + "}" + t))) == Pair(m, "," + (w + "}" + t))
    ensures var tail := ParseMembers(w + "}" + t);
            ParseMembers(p + "," + w + "}" + t) == Members([m] + tail.list, tail.rest)
  {
    hide ParsePair;
    var tail := w + "}" + t;
    assert p + "," + w + "}" + t == p + ("," + tail);
    assert ("," + tail)[1..] == tail;
    assert SkipSpace(tail) == tail;
    assert ParseMoreMembers("," + tail) == ParseMembers(tail);
  }

  lemma MembersStartWithQuote(list: seq<Member>)
    requires list != []
    ensures WriteMembers(list) != "" && WriteMembers(list)[0] == '\"'
  {
    assert WritePair(list[0])[0] == '\"';
  }

  /** Reading a written object gives back its members, keys decoded and values verbatim. */
  lemma {:induction false} MembersReadBack(list: seq<Member>, t: string)
    requires list != [] && forall m :: m in list ==> IsValue(m.raw)
    ensures ParseMembers(WriteMembers(list) + "}" + t) == Members(list, t)
    decreases |list|
  {
    hide ParsePair, WritePair, ParseMembers;
    var p := WritePair(list[0]);
    if |list| == 1 {
      PairReadsBack(list[0], "}" + t);
      LastMember(p, list[0], t);
      assert [list[0]] == list;
    } else {
      var w := WriteMembers(list[1..]);
      MembersReadBack(list[1..], t);
      MembersStartWithQuote(list[1..]);
      PairReadsBack(list[0], "," + (w + "}" + t));
      OneMoreMember(p, list[0], w, t);
      assert [list[0]] + list[1..] == list;
    }
  }

  lemma ObjectOfMembers(w: string, t: string)
    requires w != "" && w[0] == '\"'
    ensures ParseObject(w + "}" + t) == ParseMembers(w + "}" + t)
  {
    hide ParseMembers;
  }

  lemma WrittenObject(list: seq<Member>, t: string)
    requires forall m :: m in list ==> IsValue(m.raw)
    ensures ParseObject(WriteMembers(list) + "}" + t) == Members(list, t)
  {
    hide ParseMembers, IsValue;
    if list == [] {
      assert "" + "}" + t == "}" + t;
      assert ("}" + t)[1..] == t;
    } else {
      hide ParseObject, WriteMembers;
      MembersReadBack(list, t);
      MembersStartWithQuote(list);
      ObjectOfMembers(WriteMembers(list), t);
    }
  }

  lemma WrittenObjectIsValue(list: seq<Member>)
    requires forall m :: m in list ==> IsValue(m.raw)
    ensures IsValue(WriteObject(list))
  {
    hide ParseObject, WriteMembers;
    WrittenObject(list, "");
    assert WriteObject(list)[1..] == WriteMembers(list) + "}" + "";
  }
}
