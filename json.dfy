/**
 * The JSON the two ends exchange: objects whose members are strings or
 * booleans. `Encode` writes what Python's `json.dumps` writes for such an
 * object with its default options (members in insertion order, `", "`
 * between members, `": "` after a key, `ensure_ascii` escapes); `Decode` is
 * the part of `JSON.parse` that reads that layout back, escapes of either
 * hexadecimal case included, and it refuses a raw control character inside
 * a string as `JSON.parse` does. Field reads follow the truthiness rules
 * both languages share for strings and booleans.
 */
module Json {
  import opened Wrappers
  import Text

  datatype Value = Str(s: string) | Bool(b: bool)

  type Member = (string, Value)

  type Object = seq<Member>

  /**
   * `data.key` after `JSON.parse` (and `data.get(key)` in Python): the value
   * of the LAST member with that key, or nothing when there is none.
   */
  function Get(obj: Object, key: string): (r: Option<Value>)
    ensures r.None? <==> forall i :: 0 <= i < |obj| ==> obj[i].0 != key
    ensures r.Some? ==> exists i :: 0 <= i < |obj| && obj[i] == (key, r.value)
  {
    if obj == [] then None
    else if obj[|obj| - 1].0 == key then Some(obj[|obj| - 1].1)
    else Get(obj[..|obj| - 1], key)
  }

  /** A field read in a condition: missing, `""` and `false` are falsy. */
  predicate Truthy(v: Option<Value>) {
    match v
    case None => false
    case Some(Str(s)) => s != ""
    case Some(Bool(b)) => b
  }

  /** The text JavaScript makes of a value in `+=` or a template literal. */
  function ToText(v: Value): string {
    match v
    case Str(s) => s
    case Bool(b) => if b then "true" else "false"
  }

  // ---------------------------------------------------------------- writing

  /** The lower-case hexadecimal digit for `n`. */
  function HexDigit(n: nat): char
    requires n < 16
  {
    if n < 10 then ('0' as int + n) as char else ('a' as int + n - 10) as char
  }

  /** `n` written as `width` hexadecimal digits, the most significant first. */
  function Hex(n: nat, width: nat): (h: string)
    ensures |h| == width
    decreases width
  {
    if width == 0 then [] else Hex(n / 16, width - 1) + [HexDigit(n % 16)]
  }

  /** `16` to the power `k`. */
  function Pow16(k: nat): nat {
    if k == 0 then 1 else 16 * Pow16(k - 1)
  }

  /** The escape `\uXXXX` of one UTF-16 code unit. */
  function UnitEscape(u: nat): string
    requires u < 0x1_0000
  {
    "\\u" + Hex(u, 4)
  }

  /**
   * How one character is written inside a JSON string literal with
   * `ensure_ascii` on, as `json.dumps` does by default: the short escapes of
   * its escape table, printable ASCII as itself, any other character of the
   * Basic Multilingual Plane as `\uXXXX`, and a character above it as the
   * `\uXXXX\uXXXX` escapes of its UTF-16 surrogate pair.
   */
  function EscapeChar(c: char): string {
    if c == '"' then "\\\""
    else if c == '\\' then "\\\\"
    else if c == '\n' then "\\n"
    else if c == '\r' then "\\r"
    else if c == '\t' then "\\t"
    else if c == '\U{0008}' then "\\b"
    else if c == '\U{000C}' then "\\f"
    else if ' ' <= c <= '~' then [c]
    else if c as int < 0x1_0000 then UnitEscape(c as int)
    else
      var v := c as int - 0x1_0000;
      UnitEscape(0xD800 + v / 0x400) + UnitEscape(0xDC00 + v % 0x400)
  }

  function Escape(s: string): string {
    if s == [] then [] else EscapeChar(s[0]) + Escape(s[1..])
  }

  function Quote(s: string): string {
    "\"" + Escape(s) + "\""
  }

  function EncodeValue(v: Value): string {
    match v
    case Str(s) => Quote(s)
    case Bool(b) => if b then "true" else "false"
  }

  function EncodeMember(m: Member): string {
    Quote(m.0) + ": " + EncodeValue(m.1)
  }

  function EncodeMembers(obj: Object): string {
    if obj == [] then ""
    else if |obj| == 1 then EncodeMember(obj[0])
    else EncodeMember(obj[0]) + ", " + EncodeMembers(obj[1..])
  }

  /** `json.dumps(obj)`. */
  function Encode(obj: Object): string {
    "{" + EncodeMembers(obj) + "}"
  }

  // ---------------------------------------------------------------- reading

  /** The character a short escape `\c` stands for, if `c` may follow a backslash. */
  function Unescape(c: char): Option<char> {
    if c == '"' then Some('"')
    else if c == '\\' then Some('\\')
    else if c == '/' then Some('/')
    else if c == 'n' then Some('\n')
    else if c == 'r' then Some('\r')
    else if c == 't' then Some('\t')
    else if c == 'b' then Some('\U{0008}')
    else if c == 'f' then Some('\U{000C}')
    else None
  }

  /** The value of a hexadecimal digit of either case. */
  function HexValue(c: char): Option<nat> {
    if '0' <= c <= '9' then Some(c as int - '0' as int)
    else if 'a' <= c <= 'f' then Some(c as int - 'a' as int + 10)
    else if 'A' <= c <= 'F' then Some(c as int - 'A' as int + 10)
    else None
  }

  /** The number a run of hexadecimal digits spells, if every character is one. */
  function HexNumber(h: string): (r: Option<nat>)
    ensures r.Some? ==> r.value < Pow16(|h|)
    decreases |h|
  {
    if h == [] then Some(0)
    else match (HexNumber(h[..|h| - 1]), HexValue(h[|h| - 1]))
      case (Some(a), Some(d)) => Some(16 * a + d)
      case _ => None
  }

  /** The code unit of a `\uXXXX` escape at the start of `s`. */
  function Unit(s: string): (r: Option<nat>)
    ensures r.Some? ==> 6 <= |s| && r.value < 0x1_0000
  {
    if 6 <= |s| && s[0] == '\\' && s[1] == 'u' then
      var r := HexNumber(s[2..6]);
      assert r.Some? ==> r.value < Pow16(4) == 0x1_0000;
      r
    else None
  }

  /**
   * The character that `\uXXXX` escapes at the start of `s` stand for, and
   * how many characters they take: one escape for a code unit outside the
   * surrogates, two for a high surrogate followed by a low one.
   */
  function UnitChar(s: string): (r: Option<(char, nat)>)
    ensures r.Some? ==> 6 <= r.value.1 <= |s|
  {
    match Unit(s)
    case None => None
    case Some(u) =>
      if u < 0xD800 || 0xE000 <= u then Some((u as char, 6))
      else if 0xDC00 <= u then None
      else match Unit(s[6..])
        case None => None
        case Some(w) =>
          if 0xDC00 <= w < 0xE000 then Some(((0x1_0000 + (u - 0xD800) * 0x400 + (w - 0xDC00)) as char, 12))
          else None
  }

  /**
   * Reads the body of a string literal up to its closing quote; yields the
   * decoded text and what follows the quote. A raw control character is a
   * syntax error.
   */
  function ParseStringBody(s: string): (r: Option<(string, string)>)
    ensures r.Some? ==> |r.value.1| < |s|
    decreases |s|
  {
    if s == [] then None
    else if s[0] == '"' then Some(([], s[1..]))
    else if s[0] < ' ' then None
    else if s[0] == '\\' then
      if |s| < 2 then None
      else if s[1] == 'u' then
        match UnitChar(s)
        case None => None
        case Some((c, n)) =>
          match ParseStringBody(s[n..])
          case None => None
          case Some((t, rest)) => Some(([c] + t, rest))
      else match Unescape(s[1])
        case None => None
        case Some(c) =>
          match ParseStringBody(s[2..])
          case None => None
          case Some((t, rest)) => Some(([c] + t, rest))
    else
      match ParseStringBody(s[1..])
      case None => None
      case Some((t, rest)) => Some(([s[0]] + t, rest))
  }

  function ParseString(s: string): (r: Option<(string, string)>)
    ensures r.Some? ==> |r.value.1| < |s|
  {
    if |s| > 0 && s[0] == '"' then ParseStringBody(s[1..]) else None
  }

  function ParseValue(s: string): (r: Option<(Value, string)>)
    ensures r.Some? ==> |r.value.1| < |s|
  {
    if Text.StartsWith(s, "true") then Some((Bool(true), s[4..]))
    else if Text.StartsWith(s, "false") then Some((Bool(false), s[5..]))
    else match ParseString(s)
      case None => None
      case Some((t, rest)) => Some((Str(t), rest))
  }

  function ParseMember(s: string): (r: Option<(Member, string)>)
    ensures r.Some? ==> |r.value.1| < |s|
  {
    match ParseString(s)
    case None => None
    case Some((key, rest)) =>
      if !Text.StartsWith(rest, ": ") then None
      else match ParseValue(rest[2..])
        case None => None
        case Some((v, rest')) => Some(((key, v), rest'))
  }

  /** Reads members separated by `", "` up to and including the closing brace. */
  function ParseMembers(s: string): (r: Option<(Object, string)>)
    ensures r.Some? ==> |r.value.1| < |s|
    decreases |s|
  {
    match ParseMember(s)
    case None => None
    case Some((m, rest)) =>
      if Text.StartsWith(rest, "}") then Some(([m], rest[1..]))
      else if Text.StartsWith(rest, ", ") then
        match ParseMembers(rest[2..])
        case None => None
        case Some((ms, rest')) => Some(([m] + ms, rest'))
      else None
  }

  /** `JSON.parse(s)` for an object; `None` stands for a thrown SyntaxError. */
  function Decode(s: string): Option<Object> {
    if s == "{}" then Some([])
    else if |s| > 0 && s[0] == '{' then
      match ParseMembers(s[1..])
      case Some((obj, rest)) => if rest == [] then Some(obj) else None
      case None => None
    else None
  }

  // ---------------------------------------------------------------- round trip

  lemma {:induction false} StringRoundTrip(s: string, rest: string)
    ensures ParseStringBody(Escape(s) + "\"" + rest) == Some((s, rest))
    decreases |s|
  {
    if s == [] {
      assert Escape(s) + "\"" + rest == "\"" + rest;
    } else {
      var t := Escape(s[1..]) + "\"" + rest;
      assert Escape(s) + "\"" + rest == EscapeChar(s[0]) + t;
      StringRoundTrip(s[1..], rest);
      CharRoundTrip(s[0], t, s[1..], rest);
      assert [s[0]] + s[1..] == s;
    }
  }

  /** An escaped character in front of a string body is read back as that character. */
  lemma CharRoundTrip(c: char, t: string, u: string, rest: string)
    requires ParseStringBody(t) == Some((u, rest))
    ensures ParseStringBody(EscapeChar(c) + t) == Some(([c] + u, rest))
  {
    var x := EscapeChar(c) + t;
    if c == '"' || c == '\\' || c == '\n' || c == '\r' || c == '\t' || c == '\U{0008}' || c == '\U{000C}' {
      assert x[0] == '\\' && x[1] != 'u' && Unescape(x[1]) == Some(c) && x[2..] == t;
    } else if ' ' <= c <= '~' {
      assert x[0] == c && x[1..] == t;
    } else if c as int < 0x1_0000 {
      UnitRoundTrip(c as int, t);
      assert UnitChar(x) == Some((c, 6));
    } else {
      PairRoundTrip(c, t);
    }
  }

  /** A `\uXXXX` escape reads back as its code unit, followed by the rest. */
  lemma UnitRoundTrip(u: nat, t: string)
    requires u < 0x1_0000
    ensures var x := UnitEscape(u) + t;
      x[0] == '\\' && x[1] == 'u' && Unit(x) == Some(u) && x[6..] == t
  {
    var x := UnitEscape(u) + t;
    assert x[2..6] == Hex(u, 4);
    assert Pow16(4) == 0x1_0000;
    HexRoundTrip(u, 4);
  }

  /** A character above the Basic Multilingual Plane reads back from its surrogate pair. */
  lemma PairRoundTrip(c: char, t: string)
    requires c as int >= 0x1_0000
    ensures var x := EscapeChar(c) + t;
      x[0] == '\\' && x[1] == 'u' && UnitChar(x) == Some((c, 12)) && x[12..] == t
  {
    var v := c as int - 0x1_0000;
    var hi := 0xD800 + v / 0x400;
    var lo := 0xDC00 + v % 0x400;
    var x := EscapeChar(c) + t;
    assert x == UnitEscape(hi) + (UnitEscape(lo) + t);
    UnitRoundTrip(hi, UnitEscape(lo) + t);
    UnitRoundTrip(lo, t);
    assert 0x1_0000 + (hi - 0xD800) * 0x400 + (lo - 0xDC00) == c as int;
  }

  /** Hexadecimal digits read back as the number they were written from. */
  lemma {:induction false} HexRoundTrip(n: nat, width: nat)
    requires n < Pow16(width)
    ensures HexNumber(Hex(n, width)) == Some(n)
    decreases width
  {
    var h := Hex(n, width);
    if width > 0 {
      assert h[..width - 1] == Hex(n / 16, width - 1);
      HexRoundTrip(n / 16, width - 1);
      assert HexValue(h[width - 1]) == Some(n % 16);
    }
  }

  lemma ValueRoundTrip(v: Value, rest: string)
    ensures ParseValue(EncodeValue(v) + rest) == Some((v, rest))
  {
    match v
    case Str(str) =>
      var t := Escape(str) + "\"" + rest;
      QuotedText(str, rest);
      assert EncodeValue(v) + rest == "\"" + t;
      NotKeyword(t);
      ParseQuoted(t);
      StringRoundTrip(str, rest);
    case Bool(b) =>
      var x := EncodeValue(v) + rest;
      if b {
        assert x[..4] == "true" && x[4..] == rest;
      } else {
        assert x[0] == 'f';
        assert x[..4] != "true";
        assert x[..5] == "false" && x[5..] == rest;
      }
  }

  lemma QuotedText(str: string, rest: string)
    ensures Quote(str) + rest == "\"" + (Escape(str) + "\"" + rest)
  {
  }

  /** Text that starts with a quote is no keyword. */
  lemma NotKeyword(t: string)
    ensures !Text.StartsWith("\"" + t, "true") && !Text.StartsWith("\"" + t, "false")
  {
    assert ("\"" + t)[0] == '"';
  }

  lemma ParseQuoted(t: string)
    ensures ParseString("\"" + t) == ParseStringBody(t)
  {
    assert ("\"" + t)[1..] == t;
  }

  lemma DropPrefix(p: string, t: string)
    ensures Text.StartsWith(p + t, p) && (p + t)[|p|..] == t
  {
    assert (p + t)[..|p|] == p;
  }

  lemma MemberText(m: Member, rest: string)
    ensures EncodeMember(m) + rest == "\"" + (Escape(m.0) + "\"" + (": " + (EncodeValue(m.1) + rest)))
  {
    Regroup6("\"", Escape(m.0), "\"", ": ", EncodeValue(m.1), rest);
  }

  lemma Regroup6(a: string, b: string, c: string, d: string, e: string, f: string)
    ensures a + b + c + d + e + f == a + (b + c + (d + (e + f)))
  {
  }

  lemma MemberRoundTrip(m: Member, rest: string)
    ensures ParseMember(EncodeMember(m) + rest) == Some((m, rest))
  {
    var afterKey := ": " + (EncodeValue(m.1) + rest);
    MemberText(m, rest);
    ParseQuoted(Escape(m.0) + "\"" + afterKey);
    StringRoundTrip(m.0, afterKey);
    DropPrefix(": ", EncodeValue(m.1) + rest);
    ValueRoundTrip(m.1, rest);
  }

  /** One step of `ParseMembers` over an encoded member. */
  lemma ParseMembersStep(m: Member, tail: string)
    ensures ParseMembers(EncodeMember(m) + tail) ==
      if Text.StartsWith(tail, "}") then Some(([m], tail[1..]))
      else if Text.StartsWith(tail, ", ") then
        match ParseMembers(tail[2..])
        case None => None
        case Some((ms, rest')) => Some(([m] + ms, rest'))
      else None
  {
    MemberRoundTrip(m, tail);
  }

  lemma {:induction false} MembersRoundTrip(obj: Object, rest: string)
    requires obj != []
    ensures ParseMembers(EncodeMembers(obj) + "}" + rest) == Some((obj, rest))
    decreases |obj|
  {
    if |obj| == 1 {
      SingleMember(obj);
      LastMemberRoundTrip(obj[0], rest);
    } else {
      var more := EncodeMembers(obj[1..]) + "}" + rest;
      MembersText(obj, rest);
      MembersRoundTrip(obj[1..], rest);
      NextMemberRoundTrip(obj[0], more, obj[1..], rest);
      assert [obj[0]] + obj[1..] == obj;
    }
  }

  lemma SingleMember(obj: Object)
    requires |obj| == 1
    ensures EncodeMembers(obj) == EncodeMember(obj[0]) && [obj[0]] == obj
  {
  }

  lemma MembersText(obj: Object, rest: string)
    requires |obj| > 1
    ensures EncodeMembers(obj) + "}" + rest == EncodeMember(obj[0]) + (", " + (EncodeMembers(obj[1..]) + "}" + rest))
  {
    assert EncodeMembers(obj) == EncodeMember(obj[0]) + ", " + EncodeMembers(obj[1..]);
    Regroup5(EncodeMember(obj[0]), ", ", EncodeMembers(obj[1..]), "}", rest);
  }

  lemma Regroup5(a: string, b: string, c: string, d: string, e: string)
    ensures a + b + c + d + e == a + (b + (c + d + e))
  {
  }

  lemma LastMemberRoundTrip(m: Member, rest: string)
    ensures ParseMembers(EncodeMember(m) + "}" + rest) == Some(([m], rest))
  {
    var tail := "}" + rest;
    assert EncodeMember(m) + "}" + rest == EncodeMember(m) + tail;
    ParseMembersStep(m, tail);
    DropPrefix("}", rest);
  }

  lemma NextMemberRoundTrip(m: Member, more: string, ms: Object, rest: string)
    requires ParseMembers(more) == Some((ms, rest))
    ensures ParseMembers(EncodeMember(m) + (", " + more)) == Some(([m] + ms, rest))
  {
    ParseMembersStep(m, ", " + more);
    NotClose(more);
    DropPrefix(", ", more);
  }

  lemma NotClose(more: string)
    ensures !Text.StartsWith(", " + more, "}")
  {
    assert (", " + more)[0] == ',';
  }

  /** What `json.dumps` writes, `JSON.parse` reads back unchanged. */
  lemma DecodeEncode(obj: Object)
    ensures Decode(Encode(obj)) == Some(obj)
  {
    if obj != [] {
      EncodedBody(obj);
      MembersRoundTrip(obj, "");
    }
  }

  /** A non-empty object's text is a brace, then members that are not the empty-object text. */
  lemma EncodedBody(obj: Object)
    requires obj != []
    ensures var x := Encode(obj);
      x != "{}" && |x| > 0 && x[0] == '{' && x[1..] == EncodeMembers(obj) + "}" + ""
  {
    MembersStartWithQuote(obj);
    BraceText(EncodeMembers(obj));
  }

  lemma BraceText(m: string)
    requires |m| > 0 && m[0] == '"'
    ensures var x := "{" + m + "}";
      x != "{}" && |x| > 0 && x[0] == '{' && x[1..] == m + "}" + ""
  {
    var x := "{" + m + "}";
    assert x[1] == '"';
  }

  lemma MembersStartWithQuote(obj: Object)
    requires obj != []
    ensures |EncodeMembers(obj)| > 0 && EncodeMembers(obj)[0] == '"'
  {
    var first := EncodeMember(obj[0]);
    assert first[0] == '"';
  }

  lemma {:induction false} EscapeNoNewline(s: string)
    ensures '\n' !in Escape(s)
    decreases |s|
  {
    if s != [] {
      EscapeCharNoNewline(s[0]);
      EscapeNoNewline(s[1..]);
    }
  }

  lemma EscapeCharNoNewline(c: char)
    ensures '\n' !in EscapeChar(c)
  {
    if c as int >= 0x1_0000 {
      var v := c as int - 0x1_0000;
      UnitNoNewline(0xD800 + v / 0x400);
      UnitNoNewline(0xDC00 + v % 0x400);
    } else if c as int > '~' as int || c < ' ' {
      UnitNoNewline(c as int);
    }
  }

  lemma UnitNoNewline(u: nat)
    requires u < 0x1_0000
    ensures '\n' !in UnitEscape(u)
  {
    HexNoNewline(u, 4);
  }

  lemma {:induction false} HexNoNewline(n: nat, width: nat)
    ensures '\n' !in Hex(n, width)
    decreases width
  {
    if width > 0 {
      HexNoNewline(n / 16, width - 1);
    }
  }

  lemma {:induction false} MembersNoNewline(obj: Object)
    ensures '\n' !in EncodeMembers(obj)
    decreases |obj|
  {
    if obj != [] {
      MemberNoNewline(obj[0]);
      if |obj| > 1 {
        MembersNoNewline(obj[1..]);
        assert EncodeMembers(obj) == EncodeMember(obj[0]) + ", " + EncodeMembers(obj[1..]);
      }
    }
  }

  lemma MemberNoNewline(m: Member)
    ensures '\n' !in EncodeMember(m)
  {
    EscapeNoNewline(m.0);
    if m.1.Str? {
      EscapeNoNewline(m.1.s);
    }
  }

  /** An encoded object is one line: a newline inside a string is escaped. */
  lemma EncodeNoNewline(obj: Object)
    ensures '\n' !in Encode(obj)
  {
    MembersNoNewline(obj);
  }
}
