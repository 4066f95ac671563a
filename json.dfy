/**
 * The stored representation of a user: the compact JSON text that the serializer
 * writes for the `User` record, and a decoder that reads it back.
 *
 * The encoder writes the three fields in declaration order with no whitespace,
 * `{"id":"…","name":"…","email":"…"}`, and escapes string characters with the
 * serializer's table: `"` and `\` with a backslash, the control characters
 * U+0008, U+0009, U+000A, U+000C and U+000D as `\b`, `\t`, `\n`, `\f`, `\r`,
 * every other character below U+0020 as `\u00` and two lower-case hex digits,
 * and everything else as itself.
 *
 * The decoder accepts exactly the texts the encoder writes: it is proved to be
 * the encoder's inverse in both directions (DecodeEncode, EncodeDecode).
 */
module Json {

  import opened Wrappers
  import opened Users

  /** JSON text. The UTF-8 byte layer under it is not modelled. */
  type Text = seq<char>

  const HexDigits: string := "0123456789abcdef"

  /** The opening of each member of the object, up to and including the value's opening quote. */
  const IdOpen: Text := "{\"id\":\""
  const NameOpen: Text := ",\"name\":\""
  const EmailOpen: Text := ",\"email\":\""
  /** What follows the last value's closing quote. */
  const Close: Text := "}"

  /**
   * The serializer's two-character escapes: the letter written after the
   * backslash, for the characters that have one.
   */
  function ShortEscape(c: char): Option<char>
  {
    if c == '"' then Some('"')
    else if c == '\\' then Some('\\')
    else if c as int == 0x08 then Some('b')
    else if c as int == 0x09 then Some('t')
    else if c as int == 0x0A then Some('n')
    else if c as int == 0x0C then Some('f')
    else if c as int == 0x0D then Some('r')
    else None
  }

  /** The character a two-character escape stands for. */
  function ShortUnescape(e: char): Option<char>
  {
    if e == '"' then Some('"')
    else if e == '\\' then Some('\\')
    else if e == 'b' then Some(0x08 as char)
    else if e == 't' then Some(0x09 as char)
    else if e == 'n' then Some(0x0A as char)
    else if e == 'f' then Some(0x0C as char)
    else if e == 'r' then Some(0x0D as char)
    else None
  }

  /** The value of a lower-case hexadecimal digit. */
  function HexValue(d: char): (r: Option<nat>)
    ensures r.Some? ==> r.value < 16 && HexDigits[r.value] == d
    ensures r.None? ==> d !in HexDigits
  {
    if '0' <= d <= '9' then Some(d as int - '0' as int)
    else if 'a' <= d <= 'f' then Some(d as int - 'a' as int + 10)
    else None
  }

  /** The six-character escape `\u00XX` of a control character, with lower-case hex digits. */
  function UnicodeEscape(code: nat): Text
    requires code < 0x20
  {
    ['\\', 'u', '0', '0', HexDigits[code / 16], HexDigits[code % 16]]
  }

  /** How one character of a string value is written. */
  function EscapeChar(c: char): Text
  {
    match ShortEscape(c)
    case Some(e) => ['\\', e]
    case None => if c as int < 0x20 then UnicodeEscape(c as int) else [c]
  }

  /** How a string value is written between its quotes. */
  function Escape(s: string): Text
  {
    if s == [] then [] else EscapeChar(s[0]) + Escape(s[1..])
  }

  /** One member of the object: its fixed opening, the escaped value and the closing quote. */
  function Member(open: Text, s: string): Text
  {
    open + Escape(s) + "\""
  }

  /** The record as the serializer writes it. */
  function Encode(u: User): Text
  {
    Member(IdOpen, u.id) + Member(NameOpen, u.name) + Member(EmailOpen, u.email) + Close
  }

  /**
   * Reads one character of a string value from the front of `t`: the character
   * and how many characters of `t` it occupies. Fails on the closing quote, on a
   * raw control character and on an escape the encoder never writes.
   */
  function DecodeChar(t: Text): (r: Option<(char, nat)>)
    ensures r.Some? ==> 1 <= r.value.1 <= |t|
  {
    if |t| == 0 || t[0] == '"' then None
    else if t[0] != '\\' then
      if t[0] as int < 0x20 then None else Some((t[0], 1))
    else if |t| < 2 then None
    else if ShortUnescape(t[1]).Some? then Some((ShortUnescape(t[1]).value, 2))
    else if |t| >= 6 && t[1] == 'u' && t[2] == '0' && t[3] == '0'
         && HexValue(t[4]).Some? && HexValue(t[4]).value < 2 && HexValue(t[5]).Some? then
      var code := HexValue(t[4]).value * 16 + HexValue(t[5]).value;
      if ShortEscape(code as char).Some? then None else Some((code as char, 6))
    else None
  }

  /** A decoded string value and the text after its closing quote. */
  datatype Parsed = Parsed(value: string, rest: Text)

  /** Reads a string value up to and including its closing quote (the opening quote is already consumed). */
  function ParseString(t: Text): Option<Parsed>
    decreases |t|
  {
    if |t| == 0 then None
    else if t[0] == '"' then Some(Parsed([], t[1..]))
    else match DecodeChar(t)
      case None => None
      case Some((c, n)) =>
        match ParseString(t[n..])
        case None => None
        case Some(p) => Some(Parsed([c] + p.value, p.rest))
  }

  /** Reads one member of the object: its fixed opening, then its string value. */
  function ParseMember(t: Text, open: Text): Option<Parsed>
  {
    if open <= t then ParseString(t[|open|..]) else None
  }

  /** Reads a record; `None` for any text the encoder does not write. */
  function Decode(t: Text): Option<User>
  {
    match ParseMember(t, IdOpen)
    case None => None
    case Some(id) =>
      match ParseMember(id.rest, NameOpen)
      case None => None
      case Some(name) =>
        match ParseMember(name.rest, EmailOpen)
        case None => None
        case Some(email) =>
          if email.rest == Close then Some(User(id.value, name.value, email.value)) else None
  }

  /** The two escape tables are inverse to each other. */
  lemma ShortEscapeInverse(c: char, e: char)
    ensures ShortEscape(c) == Some(e) <==> ShortUnescape(e) == Some(c)
  {
  }

  lemma HexValueOfDigit(k: nat)
    requires k < 16
    ensures HexValue(HexDigits[k]) == Some(k)
  {
    assert HexDigits[k] in HexDigits;
  }

  /** A `\u00XX` escape reads back as its control character. */
  lemma DecodeUnicodeEscape(code: nat, rest: Text)
    requires code < 0x20 && ShortEscape(code as char).None?
    ensures DecodeChar(UnicodeEscape(code) + rest) == Some((code as char, 6))
  {
    var t := UnicodeEscape(code) + rest;
    assert t[1] == 'u' && t[4] == HexDigits[code / 16] && t[5] == HexDigits[code % 16];
    HexValueOfDigit(code / 16);
    HexValueOfDigit(code % 16);
  }

  /** An escaped character reads back as itself, occupying exactly its escape. */
  lemma DecodeEscapeChar(c: char, rest: Text)
    ensures DecodeChar(EscapeChar(c) + rest) == Some((c, |EscapeChar(c)|))
  {
    match ShortEscape(c)
    case Some(e) =>
      ShortEscapeInverse(c, e);
    case None =>
      if c as int < 0x20 {
        DecodeUnicodeEscape(c as int, rest);
      }
  }

  /** Whatever DecodeChar accepts is exactly the escape of the character it returns. */
  lemma DecodeCharCanonical(t: Text)
    requires DecodeChar(t).Some?
    ensures t[..DecodeChar(t).value.1] == EscapeChar(DecodeChar(t).value.0)
  {
    var c := DecodeChar(t).value.0;
    if t[0] != '\\' {
      assert ShortEscape(c).None?;
    } else if ShortUnescape(t[1]).Some? {
      ShortEscapeInverse(c, t[1]);
    } else {
      var code := c as int;
      assert code / 16 == HexValue(t[4]).value && code % 16 == HexValue(t[5]).value;
      assert t[..6] == UnicodeEscape(code);
    }
  }

  /** A string value written by the encoder reads back as the same string. */
  lemma {:induction false} ParseEscaped(s: string, rest: Text)
    ensures ParseString(Escape(s) + ['"'] + rest) == Some(Parsed(s, rest))
  {
    if s == [] {
      assert Escape(s) + ['"'] + rest == ['"'] + rest;
    } else {
      var e := EscapeChar(s[0]);
      var tail := Escape(s[1..]) + ['"'] + rest;
      var t := Escape(s) + ['"'] + rest;
      assert t == e + tail;
      DecodeEscapeChar(s[0], tail);
      assert t[|e|..] == tail;
      ParseEscaped(s[1..], rest);
      assert [s[0]] + s[1..] == s;
    }
  }

  /** Whatever ParseString accepts is exactly an escaped string, its closing quote and the rest. */
  lemma {:induction false} ParseStringCanonical(t: Text)
    requires ParseString(t).Some?
    ensures t == Escape(ParseString(t).value.value) + ['"'] + ParseString(t).value.rest
    decreases |t|
  {
    if t[0] != '"' {
      var c := DecodeChar(t).value.0;
      var n := DecodeChar(t).value.1;
      DecodeCharCanonical(t);
      ParseStringCanonical(t[n..]);
      var p := ParseString(t[n..]).value;
      var s := [c] + p.value;
      assert s[0] == c && s[1..] == p.value;
      calc {
        t;
        t[..n] + t[n..];
        EscapeChar(c) + (Escape(p.value) + ['"'] + p.rest);
        Escape(s) + ['"'] + p.rest;
      }
    }
  }

  lemma ParseMemberOf(open: Text, s: string, rest: Text)
    ensures ParseMember(Member(open, s) + rest, open) == Some(Parsed(s, rest))
  {
    var body := Escape(s) + ['"'] + rest;
    var t := Member(open, s) + rest;
    assert t == open + body;
    assert open <= t;
    assert t[|open|..] == body;
    ParseEscaped(s, rest);
  }

  lemma ParseMemberCanonical(t: Text, open: Text)
    requires ParseMember(t, open).Some?
    ensures t == Member(open, ParseMember(t, open).value.value) + ParseMember(t, open).value.rest
  {
    ParseStringCanonical(t[|open|..]);
    assert t == open + t[|open|..];
  }

  lemma ConcatAssoc(a: Text, b: Text, c: Text, d: Text)
    ensures a + b + c + d == a + (b + (c + d))
  {
  }

  /** Round trip: the stored text of a record decodes to that record. */
  lemma DecodeEncode(u: User)
    ensures Decode(Encode(u)) == Some(u)
  {
    var afterName := Member(EmailOpen, u.email) + Close;
    var afterId := Member(NameOpen, u.name) + afterName;
    ConcatAssoc(Member(IdOpen, u.id), Member(NameOpen, u.name), Member(EmailOpen, u.email), Close);
    ParseMemberOf(IdOpen, u.id, afterId);
    ParseMemberOf(NameOpen, u.name, afterName);
    ParseMemberOf(EmailOpen, u.email, Close);
  }

  /** The decoder is canonical: a text that decodes to a record is that record's encoding. */
  lemma EncodeDecode(t: Text, u: User)
    requires Decode(t) == Some(u)
    ensures Encode(u) == t
  {
    var id := ParseMember(t, IdOpen).value;
    var name := ParseMember(id.rest, NameOpen).value;
    var email := ParseMember(name.rest, EmailOpen).value;
    assert u == User(id.value, name.value, email.value) && email.rest == Close;
    ParseMemberCanonical(t, IdOpen);
    ParseMemberCanonical(id.rest, NameOpen);
    ParseMemberCanonical(name.rest, EmailOpen);
    calc {
      t;
      Member(IdOpen, u.id) + id.rest;
      Member(IdOpen, u.id) + (Member(NameOpen, u.name) + name.rest);
      Member(IdOpen, u.id) + (Member(NameOpen, u.name) + (Member(EmailOpen, u.email) + Close));
      { ConcatAssoc(Member(IdOpen, u.id), Member(NameOpen, u.name), Member(EmailOpen, u.email), Close); }
      Encode(u);
    }
  }

  /** Two different records never share a stored text. */
  lemma EncodeInjective(u: User, v: User)
    requires Encode(u) == Encode(v)
    ensures u == v
  {
    DecodeEncode(u);
    DecodeEncode(v);
  }
}
