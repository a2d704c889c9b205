/** Reading back what the string encoder of encoding/json writes. A reader that knows nothing of the encoder,
    only the escapes of section 7 of RFC 8259 and the encoding of section 3 of RFC 3629, gets every text back
    with its stray bytes replaced, and finds no character in it that HTML would take amiss. */
module JsonUnquote {
  import opened Ordering
  import opened Json
  import opened JsonText

  // ----- Code points -----

  /** Every code point but the surrogates. */
  predicate IsScalar(c: int) {
    0 <= c < 0xd800 || 0xe000 <= c <= 0x10ffff
  }

  function Utf8(c: int): string
    requires 0 <= c <= 0x10ffff
  {
    if c < 0x80 then [c as char]
    else if c < 0x800 then [(0xc0 + c / 64) as char, (0x80 + c % 64) as char]
    else if c < 0x10000 then [(0xe0 + c / 4096) as char, (0x80 + c / 64 % 64) as char, (0x80 + c % 64) as char]
    else [(0xf0 + c / 262144) as char, (0x80 + c / 4096 % 64) as char, (0x80 + c / 64 % 64) as char,
          (0x80 + c % 64) as char]
  }

  // ----- The reader -----

  function HexValue(c: char): Option<nat> {
    if '0' <= c <= '9' then Some(c as int - '0' as int)
    else if 'a' <= c <= 'f' then Some(c as int - 'a' as int + 10)
    else if 'A' <= c <= 'F' then Some(c as int - 'A' as int + 10)
    else None
  }

  /** Four hexadecimal digits. */
  function HexFour(s: string): Option<nat>
    requires |s| >= 4
  {
    var a, b, c, d := HexValue(s[0]), HexValue(s[1]), HexValue(s[2]), HexValue(s[3]);
    if a.Some? && b.Some? && c.Some? && d.Some?
    then Some(((a.value * 16 + b.value) * 16 + c.value) * 16 + d.value) else None
  }

  function Simple(c: char): Option<char> {
    match c
    case '"' => Some('"')
    case '\\' => Some('\\')
    case '/' => Some('/')
    case 'b' => Some(8 as char)
    case 'f' => Some(12 as char)
    case 'n' => Some(10 as char)
    case 'r' => Some(13 as char)
    case 't' => Some(9 as char)
    case _ => None
  }

  function Prepended(s: string, rest: Option<string>): Option<string> {
    if rest.Some? then Some(s + rest.value) else None
  }

  /** The text between the quotes of a JSON string; surrogate pairs, which the encoder never writes, are left
      out. */
  function Unescape(s: string): Option<string> {
    if s == "" then Some("")
    else if s[0] == '\\' then
      if |s| < 2 then None
      else if Simple(s[1]).Some? then Prepended([Simple(s[1]).value], Unescape(s[2..]))
      else if s[1] == 'u' && |s| >= 6 && HexFour(s[2..]).Some? && IsScalar(HexFour(s[2..]).value) then
        Prepended(Utf8(HexFour(s[2..]).value), Unescape(s[6..]))
      else None
    else if s[0] == '"' || s[0] as int < 0x20 then None
    else Prepended([s[0]], Unescape(s[1..]))
  }

  // ----- Reading back -----

  lemma PrependTwice(p: string, q: string, rest: Option<string>)
    ensures Prepended(p, Prepended(q, rest)) == Prepended(p + q, rest)
  {
    if rest.Some? {
      assert p + (q + rest.value) == p + q + rest.value;
    }
  }

  /** Bytes outside ASCII are read as they are. */
  lemma {:induction false} UnescapeRaw(p: string, x: string)
    requires forall i | 0 <= i < |p| :: p[i] as int >= 0x80
    ensures Unescape(p + x) == Prepended(p, Unescape(x))
  {
    hide Unescape;
    if p == "" {
      assert p + x == x;
      assert Unescape(x).Some? ==> p + Unescape(x).value == Unescape(x).value;
    } else {
      UnescapeRaw(p[1..], x);
      UnescapePlain(p[0], p[1..] + x);
      assert p + x == [p[0]] + (p[1..] + x);
      PrependTwice([p[0]], p[1..], Unescape(x));
      assert p == [p[0]] + p[1..];
    }
  }

  /** What the reader makes of one step of the encoder. */
  function Piece(s: string): string
    requires s != ""
  {
    if Stray(s) then REPLACEMENT else s[..JsonText.Step(s)]
  }

  lemma UnescapeCode(h: string, x: string)
    requires |h| == 4 && HexFour(h).Some? && IsScalar(HexFour(h).value)
    ensures Unescape("\\u" + h + x) == Prepended(Utf8(HexFour(h).value), Unescape(x))
  {
    hide Utf8, HexFour, Unescape;
    var s := "\\u" + h + x;
    assert s[2..] == h + x && s[6..] == x;
    SameHex(h, x);
    UnescapeU(s);
  }

  lemma SameHex(h: string, x: string)
    requires |h| == 4
    ensures HexFour(h + x) == HexFour(h)
  {
  }

  lemma UnescapeU(s: string)
    requires |s| >= 6 && s[0] == '\\' && s[1] == 'u' && HexFour(s[2..]).Some? && IsScalar(HexFour(s[2..]).value)
    ensures Unescape(s) == Prepended(Utf8(HexFour(s[2..]).value), Unescape(s[6..]))
  {
    hide Utf8, HexFour;
  }

  lemma UnescapeSimple(c: char, x: string)
    requires Simple(c).Some?
    ensures Unescape(['\\', c] + x) == Prepended([Simple(c).value], Unescape(x))
  {
    assert (['\\', c] + x)[2..] == x;
  }

  lemma UnescapePlain(c: char, x: string)
    requires c != '\\' && c != '"' && c as int >= 0x20
    ensures Unescape([c] + x) == Prepended([c], Unescape(x))
  {
    assert ([c] + x)[1..] == x;
  }

  lemma HexDigits(n: nat)
    requires n < 16
    ensures HexValue(Hex(n)) == Some(n)
  {
  }

  /** An ASCII character is read back, however it was escaped. */
  lemma UnescapeAscii(c: char, x: string)
    requires c as int < 0x80
    ensures Unescape(EscapeAscii(c) + x) == Prepended([c], Unescape(x))
  {
    hide Unescape, Hex, HexFour;
    var e := EscapeAscii(c);
    if |e| == 1 {
      UnescapePlain(c, x);
    } else if |e| == 2 {
      UnescapeSimple(e[1], x);
    } else {
      var h := ['0', '0', Hex(c as int / 16), Hex(c as int % 16)];
      AsciiHex(c);
      assert e == "\\u" + h;
      UnescapeCode(h, x);
    }
  }

  lemma AsciiHex(c: char)
    requires c as int < 0x80
    ensures HexFour(['0', '0', Hex(c as int / 16), Hex(c as int % 16)]) == Some(c as int)
    ensures Utf8(c as int) == [c] && IsScalar(c as int)
  {
    HexDigits(c as int / 16);
    HexDigits(c as int % 16);
  }

  // ----- Runes -----

  /** A text starts with a well-formed sequence of n bytes exactly when these encode a code point. */
  lemma RuneExactly(s: string, n: nat)
    requires n > 0
    ensures RuneLength(s) == n <==> n <= |s| && exists c :: IsScalar(c) && s[..n] == Utf8(c)
  {
    if RuneLength(s) == n {
      var c := CodePoint(s, n);
    }
    if n <= |s| {
      forall c | IsScalar(c) && s[..n] == Utf8(c) ensures RuneLength(s) == n {
        EncodedRune(s, n, c);
      }
    }
  }

  lemma Split64(h: nat, l: nat)
    requires l < 64
    ensures (h * 64 + l) / 64 == h && (h * 64 + l) % 64 == l
  {
  }

  lemma DivideTwice(c: nat)
    ensures c / 4096 == c / 64 / 64 && c / 262144 == c / 64 / 64 / 64
  {
  }

  /** The digits of a code point to the base of 64. */
  lemma Digits64(h: nat, a: nat, b: nat, d: nat)
    requires a < 64 && b < 64 && d < 64
    ensures var c := ((h * 64 + a) * 64 + b) * 64 + d;
            && c % 64 == d && c / 64 == (h * 64 + a) * 64 + b && c / 64 % 64 == b
            && c / 4096 == h * 64 + a && c / 4096 % 64 == a && c / 262144 == h
  {
    Split64((h * 64 + a) * 64 + b, d);
    Split64(h * 64 + a, b);
    Split64(h, a);
    DivideTwice(((h * 64 + a) * 64 + b) * 64 + d);
  }

  lemma CodePoint(s: string, n: nat) returns (c: int)
    requires n > 0 && RuneLength(s) == n
    ensures n <= |s| && IsScalar(c) && s[..n] == Utf8(c)
  {
    match n
    case 1 =>
      c := s[0] as int;
    case 2 =>
      c := (s[0] as int - 0xc0) * 64 + (s[1] as int - 0x80);
      Split64(s[0] as int - 0xc0, s[1] as int - 0x80);
    case 3 => c := ThreeBytes(s);
    case _ => c := FourBytes(s);
  }

  lemma ThreeBytes(s: string) returns (c: int)
    requires RuneLength(s) == 3
    ensures |s| >= 3 && IsScalar(c) && s[..3] == Utf8(c)
  {
    var h, a, b := s[0] as int - 0xe0, s[1] as int - 0x80, s[2] as int - 0x80;
    c := (h * 64 + a) * 64 + b;
    Digits64(0, h, a, b);
    assert s[..3] == [(0xe0 + h) as char, (0x80 + a) as char, (0x80 + b) as char];
  }

  lemma FourBytes(s: string) returns (c: int)
    requires RuneLength(s) > 3
    ensures RuneLength(s) == 4 <= |s| && IsScalar(c) && s[..4] == Utf8(c)
  {
    var h, a, b, d := s[0] as int - 0xf0, s[1] as int - 0x80, s[2] as int - 0x80, s[3] as int - 0x80;
    c := ((h * 64 + a) * 64 + b) * 64 + d;
    Digits64(h, a, b, d);
    assert s[..4] == [(0xf0 + h) as char, (0x80 + a) as char, (0x80 + b) as char, (0x80 + d) as char];
  }

  lemma EncodedRune(s: string, n: nat, c: int)
    requires 0 < n <= |s| && IsScalar(c) && s[..n] == Utf8(c)
    ensures RuneLength(s) == n
  {
    hide RuneLength;
    if c < 0x800 {
      OneOrTwoBytes(s, n, c);
    } else if c < 0x10000 {
      EncodedThree(s, c);
    } else {
      EncodedFour(s, c);
    }
  }

  lemma OneOrTwoBytes(s: string, n: nat, c: int)
    requires 0 < n <= |s| && 0 <= c < 0x800 && s[..n] == Utf8(c)
    ensures RuneLength(s) == n
  {
    assert forall i | 0 <= i < n :: s[i] == s[..n][i];
  }

  lemma EncodedThree(s: string, c: int)
    requires |s| >= 3 && 0x800 <= c < 0x10000 && IsScalar(c) && s[..3] == Utf8(c)
    ensures RuneLength(s) == 3
  {
    var h, a := c / 4096, c / 64 % 64;
    DivideTwice(c);
    assert s[0] == s[..3][0] && s[1] == s[..3][1] && s[2] == s[..3][2];
    assert s[0] as int == 0xe0 + h && s[1] as int == 0x80 + a && s[2] as int == 0x80 + c % 64;
    assert 4096 * h + 64 * a <= c < 4096 * h + 64 * a + 64;
  }

  lemma EncodedFour(s: string, c: int)
    requires |s| >= 4 && 0x10000 <= c <= 0x10ffff && s[..4] == Utf8(c)
    ensures RuneLength(s) == 4
  {
    var h, a := c / 262144, c / 4096 % 64;
    DivideTwice(c);
    assert s[0] == s[..4][0] && s[1] == s[..4][1] && s[2] == s[..4][2] && s[3] == s[..4][3];
    assert s[0] as int == 0xf0 + h && s[1] as int == 0x80 + a;
    assert 262144 * h + 4096 * a <= c < 262144 * h + 4096 * a + 4096;
  }

  // ----- The whole text -----

  lemma HexCodes()
    ensures HexFour("fffd") == Some(0xfffd) && HexFour("2028") == Some(0x2028) && HexFour("2029") == Some(0x2029)
  {
  }

  lemma Utf8Codes()
    ensures Utf8(0xfffd) == REPLACEMENT
    ensures Utf8(0x2028) == [0xe2 as char, 0x80 as char, 0xa8 as char]
    ensures Utf8(0x2029) == [0xe2 as char, 0x80 as char, 0xa9 as char]
  {
  }

  lemma CodeTexts()
    ensures "\\ufffd" == "\\u" + "fffd" && "\\u2028" == "\\u" + "2028" && "\\u2029" == "\\u" + "2029"
  {
  }

  lemma CodesOf(x: string)
    ensures Unescape("\\ufffd" + x) == Prepended(REPLACEMENT, Unescape(x))
    ensures Unescape("\\u2028" + x) == Prepended([0xe2 as char, 0x80 as char, 0xa8 as char], Unescape(x))
    ensures Unescape("\\u2029" + x) == Prepended([0xe2 as char, 0x80 as char, 0xa9 as char], Unescape(x))
  {
    hide Unescape, HexFour, Utf8, REPLACEMENT, Prepended;
    HexCodes();
    Utf8Codes();
    CodeTexts();
    UnescapeCode("fffd", x);
    UnescapeCode("2028", x);
    UnescapeCode("2029", x);
  }

  lemma RuneBytes(s: string)
    requires s != "" && s[0] as int >= 0x80 && !Stray(s)
    ensures forall i | 0 <= i < JsonText.Step(s) :: s[i] as int >= 0x80
  {
  }

  /** What the encoder writes in one step is read back as what it stands for. */
  lemma UnescapeFirst(s: string, x: string)
    requires s != ""
    ensures Unescape(First(s) + x) == Prepended(Piece(s), Unescape(x))
  {
    hide Unescape, RuneLength, EscapeAscii;
    CodesOf(x);
    if s[0] as int < 0x80 {
      UnescapeAscii(s[0], x);
      AsciiPiece(s);
    } else if !Stray(s) {
      RuneBytes(s);
      UnescapeRaw(s[..JsonText.Step(s)], x);
    }
  }

  lemma AsciiPiece(s: string)
    requires s != "" && s[0] as int < 0x80
    ensures Piece(s) == [s[0]]
  {
  }

  /** Every quoted text is read back with its stray bytes replaced, hence unchanged exactly when it was well
      formed. */
  lemma {:induction false} QuotedReadsBack(s: string)
    ensures Unescape(Escape(s)) == Some(Coerce(s))
    ensures Unescape(Escape(s)) == Some(s) <==> WellFormedText(s)
    decreases |s|
  {
    hide Unescape, Escape, RuneLength, First, WellFormedText;
    CoerceFixes(s);
    if s == "" {
      NothingEscaped();
    } else {
      var rest := s[JsonText.Step(s)..];
      QuotedReadsBack(rest);
      EscapeStep(s);
      UnescapeFirst(s, Escape(rest));
    }
  }

  lemma NothingEscaped()
    ensures Escape("") == "" && Unescape("") == Some("") && Coerce("") == ""
  {
  }

  // ----- Nothing HTML would take amiss -----

  predicate HarmlessCharacter(c: char) {
    c as int >= 0x20 && c != '<' && c != '>' && c != '&'
  }

  predicate Harmless(s: string) {
    forall i | 0 <= i < |s| :: HarmlessCharacter(s[i])
  }

  lemma HarmlessAscii(c: char)
    requires c as int < 0x80
    ensures Harmless(EscapeAscii(c))
  {
    if |EscapeAscii(c)| == 6 {
      HarmlessHex(c as int / 16);
      HarmlessHex(c as int % 16);
    }
  }

  lemma HarmlessHex(n: nat)
    requires n < 16
    ensures HarmlessCharacter(Hex(n))
  {
  }

  /** A quoted text holds no control character and none of <, > and &. */
  lemma {:induction false} QuotedIsHarmless(s: string)
    ensures Harmless(Escape(s))
    decreases |s|
  {
    hide RuneLength, EscapeAscii, Escape;
    if s == "" {
      NothingEscaped();
    } else {
      QuotedIsHarmless(s[JsonText.Step(s)..]);
      EscapeStep(s);
      if s[0] as int < 0x80 {
        HarmlessAscii(s[0]);
      } else if !Stray(s) {
        RuneBytes(s);
      }
    }
  }
}
