/** How much of a text its JSON spelling keeps. Everything well formed is kept; a byte that is not part of
    well-formed UTF-8 is spelled \ufffd, whichever byte it is. Models the string encoder of encoding/json,
    the reading of its output, and base64 for byte slices. */
module JsonText {
  import opened Json

  // ----- Runes and stray bytes -----

  /** The bytes the next step of the encoder consumes. */
  function Step(s: string): (n: nat)
    requires s != ""
    ensures 1 <= n <= |s|
  {
    if RuneLength(s) == 0 then 1 else RuneLength(s)
  }

  predicate Stray(s: string) {
    s != "" && RuneLength(s) == 0
  }

  predicate WellFormedText(s: string) {
    s == "" || (RuneLength(s) > 0 && WellFormedText(s[RuneLength(s)..]))
  }

  /** The bytes that belong to no rune. */
  function StrayBytes(s: string): nat {
    if s == "" then 0 else (if Stray(s) then 1 else 0) + StrayBytes(s[Step(s)..])
  }

  const REPLACEMENT: string := [0xef as char, 0xbf as char, 0xbd as char]

  /** The text after it was printed and read back. */
  function Coerce(s: string): string {
    if s == "" then "" else (if Stray(s) then REPLACEMENT else s[..Step(s)]) + Coerce(s[Step(s)..])
  }

  const ANY_STRAY: string := [0xff as char]

  /** The text with one and the same byte for every stray byte. */
  function Blur(s: string): string {
    if s == "" then "" else (if Stray(s) then ANY_STRAY else s[..Step(s)]) + Blur(s[Step(s)..])
  }

  /** Every stray byte costs two more. */
  lemma {:induction false} CoerceLength(s: string)
    ensures |Coerce(s)| == |s| + 2 * StrayBytes(s)
    ensures StrayBytes(s) == 0 <==> WellFormedText(s)
  {
    if s != "" {
      CoerceLength(s[Step(s)..]);
    }
  }

  /** Exactly the well-formed texts survive printing and reading. */
  lemma {:induction false} CoerceFixes(s: string)
    ensures Coerce(s) == s <==> WellFormedText(s)
  {
    hide RuneLength;
    CoerceLength(s);
    if WellFormedText(s) && s != "" {
      CoerceFixes(s[Step(s)..]);
      assert s == s[..Step(s)] + s[Step(s)..];
      assert Coerce(s) == s[..Step(s)] + Coerce(s[Step(s)..]);
    }
  }

  lemma BlurStep(s: string)
    ensures Blur(s) == if s == "" then "" else (if Stray(s) then ANY_STRAY else s[..Step(s)]) + Blur(s[Step(s)..])
  {
  }

  lemma {:induction false} BlurFixes(s: string)
    requires WellFormedText(s)
    ensures Blur(s) == s
  {
    if s != "" {
      BlurFixes(s[Step(s)..]);
      assert s == s[..Step(s)] + s[Step(s)..];
    }
  }

  /** What a rune looks like does not depend on what follows it. */
  lemma RuneStays(s: string, x: string)
    requires s != "" && !Stray(s)
    ensures RuneLength(s[..Step(s)] + x) == Step(s)
  {
    var t := s[..Step(s)] + x;
    assert forall i | 0 <= i < Step(s) :: t[i] == s[i];
  }

  lemma {:induction false} BlurTwice(s: string)
    ensures Blur(Blur(s)) == Blur(s) && StrayBytes(Blur(s)) == StrayBytes(s) && Coerce(Blur(s)) == Coerce(s)
  {
    if s != "" {
      var rest := s[Step(s)..];
      BlurTwice(rest);
      var t := Blur(s);
      if Stray(s) {
        assert t == ANY_STRAY + Blur(rest) && RuneLength(t) == 0;
      } else {
        RuneStays(s, Blur(rest));
        assert t[..Step(s)] == s[..Step(s)];
      }
      assert t[Step(t)..] == Blur(rest);
    }
  }

  /** A well-formed text is told from every other text. */
  lemma BlurTells(a: string, b: string)
    requires WellFormedText(b)
    ensures Blur(a) == Blur(b) <==> a == b
  {
    if Blur(a) == Blur(b) {
      CoerceLength(a);
      CoerceLength(b);
      BlurTwice(a);
      BlurFixes(b);
      BlurFixes(a);
    }
  }

  // ----- Quoting -----

  /** What the encoder writes in one step. */
  function First(s: string): string
    requires s != ""
  {
    if s[0] as int < 0x80 then EscapeAscii(s[0])
    else if Stray(s) then "\\ufffd"
    else if s[..Step(s)] == [0xe2 as char, 0x80 as char, 0xa8 as char] then "\\u2028"
    else if s[..Step(s)] == [0xe2 as char, 0x80 as char, 0xa9 as char] then "\\u2029"
    else s[..Step(s)]
  }

  lemma EscapeStep(s: string)
    requires s != ""
    ensures Escape(s) == First(s) + Escape(s[Step(s)..])
  {
    hide EscapeAscii;
    if s[0] as int >= 0x80 && !Stray(s) {
      var rune := s[..Step(s)];
      assert |rune| == 3 ==> rune[0] == s[0] && rune[1] == s[1] && rune[2] == s[2];
    }
  }

  /** The length of what was written in one step can be told from its beginning. */
  function CodeLength(t: string): nat
    requires t != ""
  {
    if t[0] == '\\' then if |t| > 1 && t[1] == 'u' then 6 else 2
    else if t[0] as int < 0x80 then 1
    else if t[0] as int < 0xe0 then 2
    else if t[0] as int < 0xf0 then 3
    else 4
  }

  lemma FirstLength(s: string, x: string)
    requires s != ""
    ensures First(s) != "" && First(s)[0] != '"' && CodeLength(First(s) + x) == |First(s)|
  {
    assert (First(s) + x)[0] == First(s)[0];
    if |First(s)| > 1 {
      assert (First(s) + x)[1] == First(s)[1];
    }
  }

  /** It tells which bytes were consumed, unless they were stray. */
  lemma FirstTells(a: string, b: string)
    requires a != "" && b != "" && First(a) == First(b)
    ensures Stray(a) == Stray(b) && (!Stray(a) ==> a[..Step(a)] == b[..Step(b)])
  {
    var f, g := First(a), First(b);
    assert |f| > 5 ==> f[2] == g[2] && f[5] == g[5];
    if a[0] as int < 0x80 && b[0] as int < 0x80 {
      assert a[..1] == [a[0]] && b[..1] == [b[0]];
      AsciiTells(a[0], b[0]);
    }
  }

  lemma HexTells(m: nat, n: nat)
    requires m < 16 && n < 16
    ensures Hex(m) == Hex(n) <==> m == n
  {
  }

  lemma AsciiTells(c: char, d: char)
    requires c as int < 0x80 && d as int < 0x80 && EscapeAscii(c) == EscapeAscii(d)
    ensures c == d
  {
    var e, f := EscapeAscii(c), EscapeAscii(d);
    assert |e| == |f| && e[0] == f[0];
    if |e| == 2 {
      assert e[1] == f[1];
    } else if |e| == 6 {
      assert e[4] == f[4] && e[5] == f[5];
      HexTells(c as int / 16, d as int / 16);
      HexTells(c as int % 16, d as int % 16);
    }
  }

  lemma EscapeHead(s: string, x: string)
    ensures var u := Escape(s) + ("\"" + x);
            (u[0] == '"' <==> s == "") && (s == "" ==> u[1..] == x)
  {
    if s != "" {
      EscapeStep(s);
      FirstLength(s, "");
      assert (Escape(s) + ("\"" + x))[0] == First(s)[0];
    }
  }

  /** A quoted text ends where its quotes do, and tells the text up to its stray bytes. */
  lemma {:induction false} EscapeTells(a: string, x: string, b: string, y: string)
    requires Escape(a) + ("\"" + x) == Escape(b) + ("\"" + y)
    ensures Blur(a) == Blur(b) && x == y
    decreases |a|
  {
    hide First, CodeLength, RuneLength, Step, Stray, Blur, Escape;
    BlurStep(a);
    BlurStep(b);
    var u, v := Escape(a) + ("\"" + x), Escape(b) + ("\"" + y);
    EscapeHead(a, x);
    EscapeHead(b, y);
    if a != "" {
      EscapeStep(a);
      EscapeStep(b);
      var r, t := Escape(a[Step(a)..]) + ("\"" + x), Escape(b[Step(b)..]) + ("\"" + y);
      assert u == First(a) + r && v == First(b) + t;
      FirstLength(a, r);
      FirstLength(b, t);
      SplitSame(First(a), r, First(b), t);
      FirstTells(a, b);
      EscapeTells(a[Step(a)..], x, b[Step(b)..], y);
    }
  }

  // Nested texts, flattened so that each part can be split off from the front.

  lemma Flat3(a: string, b: string, c: string, x: string)
    ensures a + (b + c) + x == a + (b + (c + x))
  {
  }

  lemma Flat5(a: string, b: string, c: string, d: string, e: string, x: string)
    ensures a + b + (c + d + e) + x == a + (b + (c + (d + (e + x))))
  {
  }

  lemma Flat7(a: string, b: string, c: string, d: string, e: string, f: string, g: string, x: string)
    ensures a + b + (c + d + (e + f + g)) + x == a + (b + (c + (d + (e + (f + (g + x))))))
  {
  }

  lemma SplitSame(p: string, x: string, q: string, y: string)
    requires p + x == q + y && |p| == |q|
    ensures p == q && x == y
  {
    assert p == (p + x)[..|p|] && q == (q + y)[..|p|];
    assert x == (p + x)[|p|..] && y == (q + y)[|p|..];
  }

  /** Blurring changes nothing in the first step that the encoder could show. */
  lemma FirstBlurs(s: string)
    requires s != ""
    ensures var t := Blur(s); t != "" && First(t) == First(s) && t[Step(t)..] == Blur(s[Step(s)..])
  {
    var t, rest := Blur(s), Blur(s[Step(s)..]);
    if Stray(s) {
      assert t == ANY_STRAY + rest && RuneLength(t) == 0;
    } else {
      RuneStays(s, rest);
      assert t == s[..Step(s)] + rest && t[0] == s[0] && t[..Step(s)] == s[..Step(s)];
    }
    assert t[Step(t)..] == rest;
  }

  lemma {:induction false} EscapeBlurs(s: string)
    ensures Escape(Blur(s)) == Escape(s)
  {
    hide RuneLength, First, Step, Stray;
    if s != "" {
      EscapeBlurs(s[Step(s)..]);
      FirstBlurs(s);
      EscapeStep(s);
      EscapeStep(Blur(s));
    }
  }

  /** Two quoted texts are told apart, whatever follows them, exactly by what blurring keeps. */
  lemma QuoteTells(a: string, x: string, b: string, y: string)
    ensures Quote(a) + x == Quote(b) + y <==> Blur(a) == Blur(b) && x == y
  {
    hide Escape, Blur;
    if Quote(a) + x == Quote(b) + y {
      assert Quote(a) + x == "\"" + (Escape(a) + ("\"" + x));
      assert Quote(b) + y == "\"" + (Escape(b) + ("\"" + y));
      SplitSame("\"", Escape(a) + ("\"" + x), "\"", Escape(b) + ("\"" + y));
      EscapeTells(a, x, b, y);
    }
    EscapeBlurs(a);
    EscapeBlurs(b);
  }

  // ----- Lists -----

  /** A printed item can be told from every other, whatever follows, up to what `kept` keeps. */
  ghost predicate Tells<T(!new), K(!new)>(spell: T -> string, kept: T -> K) {
    forall a, x, b, y :: TellsHere(spell, kept, a, x, b, y)
  }

  ghost predicate TellsHere<T, K>(spell: T -> string, kept: T -> K, a: T, x: string, b: T, y: string) {
    spell(a) + x == spell(b) + y ==> kept(a) == kept(b) && x == y
  }

  /** The items with commas between them, and what closes the list. */
  function ListText<T>(items: seq<T>, spell: T -> string, close: string): string {
    if items == [] then close
    else spell(items[0]) + ((if |items| > 1 then "," else "") + ListText(items[1..], spell, close))
  }

  /** No item looks like the end of the list. */
  ghost predicate Opens<T(!new)>(spell: T -> string, close: string) {
    close != "" && close[0] != ',' && forall a :: spell(a) != "" && spell(a)[0] != close[0]
  }

  function Kept<T, K>(items: seq<T>, kept: T -> K): (ks: seq<K>)
    ensures |ks| == |items| && forall i | 0 <= i < |items| :: ks[i] == kept(items[i])
  {
    if items == [] then [] else [kept(items[0])] + Kept(items[1..], kept)
  }

  lemma ListHead<T(!new)>(items: seq<T>, spell: T -> string, close: string, x: string)
    requires Opens(spell, close)
    ensures var text := ListText(items, spell, close) + x;
            text != "" && (text[0] == close[0] <==> items == [])
  {
  }

  /** A printed list tells how many items it has and what is kept of each. */
  lemma {:induction false} ListTells<T(!new), K(!new)>(xs: seq<T>, x: string, ys: seq<T>, y: string,
                                                       spell: T -> string, kept: T -> K,
                                                       close: string)
    requires Tells(spell, kept) && Opens(spell, close)
    requires ListText(xs, spell, close) + x == ListText(ys, spell, close) + y
    ensures Kept(xs, kept) == Kept(ys, kept) && x == y
  {
    ListHead(xs, spell, close, x);
    ListHead(ys, spell, close, y);
    if xs == [] {
      SplitSame(close, x, close, y);
    } else {
      var r := ((if |xs| > 1 then "," else "") + ListText(xs[1..], spell, close)) + x;
      var t := ((if |ys| > 1 then "," else "") + ListText(ys[1..], spell, close)) + y;
      assert ListText(xs, spell, close) + x == spell(xs[0]) + r;
      assert ListText(ys, spell, close) + y == spell(ys[0]) + t;
      assert TellsHere(spell, kept, xs[0], r, ys[0], t);
      assert |xs| == 1 ==> r[0] == close[0];
      assert |ys| == 1 ==> t[0] == close[0];
      if |xs| > 1 {
        assert r == "," + (ListText(xs[1..], spell, close) + x) && t == "," + (ListText(ys[1..], spell, close) + y);
        SplitSame(",", ListText(xs[1..], spell, close) + x, ",", ListText(ys[1..], spell, close) + y);
      } else {
        assert r == ListText(xs[1..], spell, close) + x && t == ListText(ys[1..], spell, close) + y;
      }
      ListTells(xs[1..], x, ys[1..], y, spell, kept, close);
    }
  }

  /** What is kept of the items determines the printed list, if it determines each printed item. */
  lemma {:induction false} ListSame<T(!new), K(!new)>(xs: seq<T>, ys: seq<T>, spell: T -> string, kept: T -> K,
                                                      close: string)
    requires forall a, b :: kept(a) == kept(b) ==> spell(a) == spell(b)
    requires Kept(xs, kept) == Kept(ys, kept)
    ensures ListText(xs, spell, close) == ListText(ys, spell, close)
  {
    assert |xs| == |Kept(xs, kept)| == |Kept(ys, kept)| == |ys|;
    if xs != [] {
      assert kept(xs[0]) == Kept(xs, kept)[0] == Kept(ys, kept)[0] == kept(ys[0]);
      assert Kept(xs[1..], kept) == Kept(xs, kept)[1..];
      assert Kept(ys[1..], kept) == Kept(ys, kept)[1..];
      ListSame(xs[1..], ys[1..], spell, kept, close);
    }
  }

  // ----- Base64 -----

  type Byte = n: nat | n < 256

  function Digit(n: nat): char
    requires n < 64
  {
    if n < 26 then (0x41 + n) as char
    else if n < 52 then (0x61 + n - 26) as char
    else if n < 62 then (0x30 + n - 52) as char
    else if n == 62 then '+'
    else '/'
  }

  /** Up to three bytes in four characters. */
  function Group(s: seq<Byte>): string
    requires s != []
  {
    [Digit(s[0] / 4),
     Digit(s[0] % 4 * 16 + if |s| > 1 then s[1] / 16 else 0),
     if |s| > 1 then Digit(s[1] % 16 * 4 + if |s| > 2 then s[2] / 64 else 0) else '=',
     if |s| > 2 then Digit(s[2] % 64) else '=']
  }

  /** base64.StdEncoding, which encoding/json uses for byte slices. */
  function Base64(s: seq<Byte>): string {
    if s == [] then "" else Group(s) + Base64(s[if |s| < 3 then |s| else 3..])
  }

  lemma DigitTells(m: nat, n: nat)
    requires m < 64 && n < 64
    ensures Digit(m) == Digit(n) <==> m == n
    ensures Digit(m) != '=' && Digit(m) != '"'
  {
  }

  lemma Sextets(x: Byte, y: nat, u: Byte, v: nat, n: nat, k: nat)
    requires (n == 4 && k == 16) || (n == 16 && k == 4)
    requires x / n == u / n && x % n * k + y == u % n * k + v && y < k && v < k
    ensures x == u && y == v
  {
  }

  /** Four characters tell their bytes, and how many there are up to three. */
  lemma GroupTells(a: seq<Byte>, b: seq<Byte>)
    requires a != [] && b != [] && Group(a) == Group(b)
    ensures if |a| < 3 then a == b else |b| >= 3 && a[..3] == b[..3]
  {
    hide Digit;
    var g, h := Group(a), Group(b);
    assert g[0] == h[0] && g[1] == h[1] && g[2] == h[2] && g[3] == h[3];
    forall m: nat, n: nat | m < 64 && n < 64 ensures (Digit(m) == Digit(n) <==> m == n) && Digit(m) != '=' {
      DigitTells(m, n);
    }
    assert |a| > 1 <==> |b| > 1;
    assert |a| > 2 <==> |b| > 2;
    var a1, b1 := if |a| > 1 then a[1] else 0, if |b| > 1 then b[1] else 0;
    var a2, b2 := if |a| > 2 then a[2] else 0, if |b| > 2 then b[2] else 0;
    Sextets(a[0], a1 / 16, b[0], b1 / 16, 4, 16);
    if |a| > 1 {
      Sextets(a1, a2 / 64, b1, b2 / 64, 16, 4);
    }
  }

  /** Base64 ends at the next quote and tells the bytes. */
  lemma {:induction false} Base64Tells(a: seq<Byte>, x: string, b: seq<Byte>, y: string)
    requires Base64(a) + ("\"" + x) == Base64(b) + ("\"" + y)
    ensures a == b && x == y
  {
    hide Group;
    var u, v := Base64(a) + ("\"" + x), Base64(b) + ("\"" + y);
    GroupHead(a);
    GroupHead(b);
    if a == [] || b == [] {
      assert u[0] == v[0];
      assert u[1..] == x && v[1..] == y;
    } else {
      var m, n := if |a| < 3 then |a| else 3, if |b| < 3 then |b| else 3;
      assert u == Group(a) + (Base64(a[m..]) + ("\"" + x)) && v == Group(b) + (Base64(b[n..]) + ("\"" + y));
      SplitSame(Group(a), Base64(a[m..]) + ("\"" + x), Group(b), Base64(b[n..]) + ("\"" + y));
      GroupTells(a, b);
      Base64Tells(a[m..], x, b[n..], y);
      assert a == a[..m] + a[m..] && b == b[..n] + b[n..];
    }
  }

  lemma GroupHead(a: seq<Byte>)
    ensures a != [] ==> |Group(a)| == 4 && Group(a)[0] != '"'
  {
  }
}
