/** Vault References: `{vault.namespace.item.field}`, and the brace-escaped `{{vault...}}`
    that stands for the literal text. Models parseReference, Reference.String and
    validResourceKey of internal/configdoc/resolve.go. */
module References {

  datatype Reference = Reference(namespaceKey: string, itemKey: string, fieldKey: string) {
    function Path(): string {
      namespaceKey + "." + itemKey + "." + fieldKey
    }

    function ToText(): string {
      "{vault." + Path() + "}"
    }

    predicate Valid() {
      ValidResourceKey(namespaceKey) && ValidResourceKey(itemKey) && ValidResourceKey(fieldKey)
    }
  }

  /** What a string scalar turns out to be. */
  datatype Parsed =
    | Literal                     // no reference in it
    | Lookup(lookup: Reference)   // the full scalar is a reference
    | Escaped(literal: Reference) // the full scalar is an escaped reference
    | Malformed

  predicate ValidResourceKey(value: string) {
    && 0 < |value| <= 63
    && 'a' <= value[0] <= 'z'
    && forall i | 1 <= i < |value| :: KeyCharacter(value[i])
  }

  predicate KeyCharacter(c: char) {
    'a' <= c <= 'z' || '0' <= c <= '9' || c == '_' || c == '-'
  }

  const LOWER := "abcdefghijklm" + "nopqrstuvwxyz"
  const DIGITS := "0123456789"

  lemma FirstLetters(c: char)
    ensures 'a' <= c <= 'm' <==> c in "abcdefghijklm"
  {
    if 'a' <= c <= 'm' {
      assert "abcdefghijklm"[c as int - 'a' as int] == c;
    }
  }

  lemma LastLetters(c: char)
    ensures 'n' <= c <= 'z' <==> c in "nopqrstuvwxyz"
  {
    if 'n' <= c <= 'z' {
      assert "nopqrstuvwxyz"[c as int - 'n' as int] == c;
    }
  }

  lemma InEither(c: char, s: string, t: string)
    ensures c in s + t <==> c in s || c in t
  {
  }

  lemma LowerExactly(c: char)
    ensures 'a' <= c <= 'z' <==> c in LOWER
  {
    FirstLetters(c);
    LastLetters(c);
    InEither(c, "abcdefghijklm", "nopqrstuvwxyz");
    assert c <= 'm' || 'n' <= c;
  }

  lemma DigitExactly(c: char)
    ensures '0' <= c <= '9' <==> c in DIGITS
  {
    if '0' <= c <= '9' {
      assert DIGITS[c as int - '0' as int] == c;
    }
  }

  /** A resource key is a letter followed by up to 62 letters, digits, underscores and hyphens. */
  lemma ResourceKeyExactly(value: string)
    ensures ValidResourceKey(value) <==>
            && 1 <= |value| <= 63 && value[0] in LOWER
            && forall c | c in value[1..] :: c in LOWER || c in DIGITS || c == '_' || c == '-'
  {
    hide LOWER, DIGITS;
    forall c ensures 'a' <= c <= 'z' <==> c in LOWER {
      LowerExactly(c);
    }
    forall c ensures '0' <= c <= '9' <==> c in DIGITS {
      DigitExactly(c);
    }
    if |value| > 0 {
      forall i | 1 <= i < |value| ensures value[i] in value[1..] {
        assert value[1..][i - 1] == value[i];
      }
    }
  }

  predicate HasSuffix(s: string, suffix: string) {
    |suffix| <= |s| && s[|s| - |suffix|..] == suffix
  }

  predicate Contains(s: string, part: string) {
    exists i | 0 <= i <= |s| :: part <= s[i..]
  }

  /** strings.Split(s, "."). */
  function Split(s: string): (parts: seq<string>)
    ensures parts != []
  {
    if s == "" then [""]
    else
      var rest := Split(s[1..]);
      if s[0] == '.' then [""] + rest else [[s[0]] + rest[0]] + rest[1..]
  }

  function ParseReference(value: string): Parsed {
    var escaped := "{{vault." <= value && HasSuffix(value, "}}");
    var candidate := if escaped then value[1..|value| - 1] else value;
    if !("{vault." <= candidate) then
      if Contains(candidate, "{vault.") then Malformed else Literal
    else if !HasSuffix(candidate, "}") then
      Malformed
    else
      var parts := Split(candidate[1..|candidate| - 1]);
      if |parts| != 4 || parts[0] != "vault" || !ValidResourceKey(parts[1])
         || !ValidResourceKey(parts[2]) || !ValidResourceKey(parts[3]) then
        Malformed
      else
        var reference := Reference(parts[1], parts[2], parts[3]);
        if escaped then Escaped(reference) else Lookup(reference)
  }

  // ----- Split is the inverse of joining with dots -----

  predicate Dotless(part: string) {
    forall i | 0 <= i < |part| :: part[i] != '.'
  }

  lemma {:induction false} SplitDotless(part: string)
    requires Dotless(part)
    ensures Split(part) == [part]
  {
    if part != "" {
      SplitDotless(part[1..]);
      assert part == [part[0]] + part[1..];
    }
  }

  lemma {:induction false} SplitCons(part: string, rest: string)
    requires Dotless(part)
    ensures Split(part + "." + rest) == [part] + Split(rest)
  {
    var s := part + "." + rest;
    if part == "" {
      assert s[1..] == rest;
    } else {
      SplitCons(part[1..], rest);
      assert s[1..] == part[1..] + "." + rest;
      assert part == [part[0]] + part[1..];
    }
  }

  ghost function Join(parts: seq<string>): string
    requires parts != []
  {
    if |parts| == 1 then parts[0] else parts[0] + "." + Join(parts[1..])
  }

  lemma {:induction false} JoinSplit(s: string)
    ensures Join(Split(s)) == s
  {
    if s != "" {
      JoinSplit(s[1..]);
      var rest := Split(s[1..]);
      var parts := Split(s);
      if s[0] == '.' {
        assert parts[1..] == rest;
      } else if |rest| > 1 {
        assert parts[1..] == rest[1..];
      }
      assert s == [s[0]] + s[1..];
    }
  }

  lemma JoinFour(parts: seq<string>)
    requires |parts| == 4
    ensures Join(parts) == parts[0] + "." + parts[1] + "." + parts[2] + "." + parts[3]
  {
    assert Join(parts[3..]) == parts[3];
    assert parts[2..][1..] == parts[3..] && parts[1..][1..] == parts[2..];
    assert Join(parts[2..]) == parts[2] + "." + parts[3];
    assert Join(parts[1..]) == parts[1] + "." + Join(parts[2..]);
  }

  lemma KeysDotless(r: Reference)
    requires r.Valid()
    ensures Dotless(r.namespaceKey) && Dotless(r.itemKey) && Dotless(r.fieldKey) && Dotless("vault")
  {
  }

  lemma SplitPath(r: Reference)
    requires r.Valid()
    ensures Split("vault." + r.Path()) == ["vault", r.namespaceKey, r.itemKey, r.fieldKey]
  {
    hide Split, ValidResourceKey;
    KeysDotless(r);
    SplitDotless(r.fieldKey);
    SplitCons(r.itemKey, r.fieldKey);
    SplitCons(r.namespaceKey, r.itemKey + "." + r.fieldKey);
    assert r.Path() == r.namespaceKey + "." + (r.itemKey + "." + r.fieldKey);
    SplitCons("vault", r.Path());
    assert "vault" + "." + r.Path() == "vault." + r.Path();
  }

  // ----- Printing and parsing are mutual inverses -----

  /** The brace-escaped spelling of a reference. */
  function EscapedText(r: Reference): string {
    "{" + r.ToText() + "}"
  }

  lemma TextShape(r: Reference)
    ensures "{vault." <= r.ToText() && HasSuffix(r.ToText(), "}") && !("{{vault." <= r.ToText())
    ensures r.ToText()[1..|r.ToText()| - 1] == "vault." + r.Path()
    ensures "{{vault." <= EscapedText(r) && HasSuffix(EscapedText(r), "}}")
    ensures EscapedText(r)[1..|EscapedText(r)| - 1] == r.ToText()
  {
    var t := r.ToText();
    assert t[..7] == "{vault.";
    assert t[1] == 'v';
    assert EscapedText(r)[..8] == "{{vault.";
    assert t[|t| - 1] == '}';
  }

  lemma ParsePrinted(r: Reference)
    requires r.Valid()
    ensures ParseReference(r.ToText()) == Lookup(r)
    ensures ParseReference(EscapedText(r)) == Escaped(r)
  {
    TextShape(r);
    SplitPath(r);
  }

  lemma PathJoined(namespaceKey: string, itemKey: string, fieldKey: string)
    ensures var r := Reference(namespaceKey, itemKey, fieldKey);
            r.ToText() == "{" + ("vault" + "." + namespaceKey + "." + itemKey + "." + fieldKey) + "}"
  {
  }

  lemma Braced(candidate: string, inner: string)
    requires |candidate| >= 2 && candidate[0] == '{' && candidate[|candidate| - 1] == '}'
    requires inner == candidate[1..|candidate| - 1]
    ensures candidate == "{" + inner + "}"
  {
  }

  lemma CandidateText(candidate: string, parts: seq<string>)
    requires "{vault." <= candidate && HasSuffix(candidate, "}")
    requires parts == Split(candidate[1..|candidate| - 1]) && |parts| == 4 && parts[0] == "vault"
    ensures candidate == Reference(parts[1], parts[2], parts[3]).ToText()
  {
    hide Split, Join;
    var inner := candidate[1..|candidate| - 1];
    JoinSplit(inner);
    JoinFour(parts);
    PathJoined(parts[1], parts[2], parts[3]);
    assert candidate[0] == '{' && candidate[|candidate| - 1] == '}';
    Braced(candidate, inner);
  }

  lemma ParsedTexts(value: string)
    ensures ParseReference(value).Lookup? ==>
            ParseReference(value).lookup.Valid() && value == ParseReference(value).lookup.ToText()
    ensures ParseReference(value).Escaped? ==>
            ParseReference(value).literal.Valid() && value == EscapedText(ParseReference(value).literal)
  {
    hide Split, ValidResourceKey, Reference.ToText;
    var escaped := "{{vault." <= value && HasSuffix(value, "}}");
    var candidate := if escaped then value[1..|value| - 1] else value;
    if "{vault." <= candidate && HasSuffix(candidate, "}") {
      var parts := Split(candidate[1..|candidate| - 1]);
      if |parts| == 4 && parts[0] == "vault" {
        CandidateText(candidate, parts);
      }
      if escaped {
        EscapeShape(value);
      }
    }
  }

  lemma EscapeShape(value: string)
    requires "{{vault." <= value && HasSuffix(value, "}}")
    ensures value == "{" + value[1..|value| - 1] + "}"
    ensures "{vault." <= value[1..] && "{vault." <= value[1..|value| - 1]
  {
    assert value[..8] == "{{vault." && value[|value| - 2..] == "}}";
    assert value[7] == '.' && value[|value| - 1] == value[|value| - 2] == '}';
    assert value[1..8] == "{vault.";
  }

  lemma ParsedLiteral(value: string)
    ensures ParseReference(value) == Literal <==> !Contains(value, "{vault.")
  {
    if "{{vault." <= value && HasSuffix(value, "}}") {
      EscapeShape(value);
    }
    assert "{vault." <= value ==> "{vault." <= value[0..];
  }

  /** ParseReference sorts every scalar by how it is spelled: a scalar is looked up exactly when
      it prints a valid reference, is unescaped exactly when it prints the escaped form, is left
      alone exactly when it does not contain the opening marker, and is refused otherwise. */
  lemma ParseExactly(value: string)
    ensures forall r :: ParseReference(value) == Lookup(r) <==> r.Valid() && value == r.ToText()
    ensures forall r :: ParseReference(value) == Escaped(r) <==> r.Valid() && value == EscapedText(r)
    ensures ParseReference(value) == Literal <==> !Contains(value, "{vault.")
  {
    ParsedTexts(value);
    ParsedLiteral(value);
    forall r: Reference | r.Valid() && value == r.ToText() ensures ParseReference(value) == Lookup(r) {
      ParsePrinted(r);
    }
    forall r: Reference | r.Valid() && value == EscapedText(r) ensures ParseReference(value) == Escaped(r) {
      ParsePrinted(r);
    }
  }
}
