/** A canonical text determines its value: the printer of Json can be read back. It holds of the values that
    a decoder yields, whose texts are well-formed UTF-8 and whose numbers are lexemes of the grammar. */
module JsonPrinted {
  import opened Ordering
  import opened Json
  import opened JsonText

  // ----- Numbers, as section 6 of RFC 8259 spells them -----

  predicate IsDigit(c: char) {
    '0' <= c <= '9'
  }

  function AfterDigits(s: string): string {
    if s != "" && IsDigit(s[0]) then AfterDigits(s[1..]) else s
  }

  predicate IsExponent(s: string) {
    s == "" || ((s[0] == 'e' || s[0] == 'E') && IsExponentPart(s[1..]))
  }

  predicate IsExponentPart(s: string) {
    var digits := if s != "" && (s[0] == '+' || s[0] == '-') then s[1..] else s;
    digits != "" && AfterDigits(digits) == ""
  }

  predicate IsFraction(s: string) {
    if s != "" && s[0] == '.' then |s| > 1 && IsDigit(s[1]) && IsExponent(AfterDigits(s[1..]))
    else IsExponent(s)
  }

  predicate IsUnsigned(s: string) {
    s != "" && IsDigit(s[0]) && IsFraction(if s[0] == '0' then s[1..] else AfterDigits(s))
  }

  predicate NumberLexeme(s: string) {
    IsUnsigned(if s != "" && s[0] == '-' then s[1..] else s)
  }

  predicate NumberCharacter(c: char) {
    IsDigit(c) || c == '-' || c == '+' || c == '.' || c == 'e' || c == 'E'
  }

  predicate NumberCharacters(s: string) {
    forall i | 0 <= i < |s| :: NumberCharacter(s[i])
  }

  lemma {:induction false} DigitsThen(s: string)
    ensures NumberCharacters(AfterDigits(s)) ==> NumberCharacters(s)
  {
    if s != "" && IsDigit(s[0]) {
      DigitsThen(s[1..]);
      CharacterThen(s);
    }
  }

  lemma CharacterThen(s: string)
    requires s != "" && NumberCharacter(s[0])
    ensures NumberCharacters(s[1..]) ==> NumberCharacters(s)
  {
    assert s == [s[0]] + s[1..];
  }

  /** No other character occurs in a number. */
  lemma NumberSpelling(s: string)
    requires NumberLexeme(s)
    ensures s != "" && NumberCharacters(s) && (IsDigit(s[0]) || s[0] == '-')
  {
    hide NumberCharacters, AfterDigits;
    if s[0] == '-' {
      CharacterThen(s);
      UnsignedSpelling(s[1..]);
    } else {
      UnsignedSpelling(s);
    }
  }

  lemma UnsignedSpelling(s: string)
    requires IsUnsigned(s)
    ensures NumberCharacters(s)
  {
    hide NumberCharacters, AfterDigits;
    CharacterThen(s);
    DigitsThen(s);
    FractionSpelling(if s[0] == '0' then s[1..] else AfterDigits(s));
  }

  lemma FractionSpelling(s: string)
    requires IsFraction(s)
    ensures NumberCharacters(s)
  {
    hide NumberCharacters, AfterDigits, IsExponent;
    if s != "" && s[0] == '.' {
      ExponentSpelling(AfterDigits(s[1..]));
      DigitsThen(s[1..]);
      CharacterThen(s);
    } else {
      ExponentSpelling(s);
    }
  }

  lemma ExponentSpelling(s: string)
    requires IsExponent(s)
    ensures NumberCharacters(s)
  {
    if s != "" {
      assert NumberCharacters("");
      DigitsThen(s[1..]);
      if |s| > 1 {
        DigitsThen(s[2..]);
        CharacterThen(s[1..]);
        assert s[1..][1..] == s[2..];
      }
      CharacterThen(s);
    }
  }

  // ----- Values that a decoder yields -----

  predicate Decodable(v: Json) {
    match v
    case JNumber(lexeme) => NumberLexeme(lexeme)
    case JString(text) => WellFormedText(text)
    case JArray(items) => forall i | 0 <= i < |items| :: Decodable(items[i])
    case JObject(members) => forall k | k in members :: WellFormedText(k) && Decodable(members[k])
    case _ => true
  }

  /** What can follow a value. */
  predicate Follows(x: string) {
    x == "" || x[0] == ',' || x[0] == '\n'
  }

  // ----- Scalars -----

  /** How many characters of a number a text begins with. */
  function Leading(s: string): nat {
    if s != "" && NumberCharacter(s[0]) then 1 + Leading(s[1..]) else 0
  }

  lemma {:induction false} LeadingIs(m: string, x: string)
    requires NumberCharacters(m) && Follows(x)
    ensures Leading(m + x) == |m|
  {
    if m == "" {
      assert m + x == x;
    } else {
      assert (m + x)[1..] == m[1..] + x;
      LeadingIs(m[1..], x);
    }
  }

  lemma NumbersTell(m: string, x: string, n: string, y: string)
    requires NumberCharacters(m) && NumberCharacters(n) && Follows(x) && Follows(y) && m + x == n + y
    ensures m == n && x == y
  {
    LeadingIs(m, x);
    LeadingIs(n, y);
    SplitSame(m, x, n, y);
  }

  lemma TextsTell(s: string, x: string, t: string, y: string)
    requires WellFormedText(s) && WellFormedText(t) && Quote(s) + x == Quote(t) + y
    ensures s == t && x == y
  {
    hide Quote;
    QuoteTells(s, x, t, y);
    BlurTells(s, t);
  }

  /** The first character of a printed value tells its kind. */
  function KindOf(v: Json): char {
    match v
    case JNull => 'n'
    case JBool(value) => if value then 't' else 'f'
    case JNumber(_) => '0'
    case JString(_) => '"'
    case JArray(_) => '['
    case JObject(_) => '{'
  }

  function KindAt(c: char): char {
    if '0' <= c <= '9' || c == '-' then '0' else c
  }

  lemma Begins(v: Json, indent: nat, x: string)
    requires Decodable(v)
    ensures Print(v, indent) != "" && KindAt((Print(v, indent) + x)[0]) == KindOf(v)
  {
    hide Escape, PrintMembers, PrintItems, NumberLexeme;
    if v.JNumber? {
      NumberSpelling(v.lexeme);
    }
    assert (Print(v, indent) + x)[0] == Print(v, indent)[0];
  }

  lemma ScalarsTell(v: Json, x: string, w: Json, y: string)
    requires Decodable(v) && Decodable(w) && !v.JArray? && !v.JObject? && KindOf(v) == KindOf(w)
    requires Follows(x) && Follows(y) && Scalar(v) + x == Scalar(w) + y
    ensures v == w && x == y
  {
    hide Quote, NumberLexeme, NumberCharacters;
    if v.JNumber? {
      NumberSpelling(v.lexeme);
      NumberSpelling(w.lexeme);
      NumbersTell(v.lexeme, x, w.lexeme, y);
    } else if v.JString? {
      TextsTell(v.text, x, w.text, y);
    } else {
      assert v == w;
      SplitSame(Scalar(v), x, Scalar(v), y);
    }
  }

  // ----- Arrays and objects -----

  function Close(indent: nat, bracket: string, x: string): string {
    "\n" + (Spaces(indent) + (bracket + x))
  }

  lemma CloseTells(indent: nat, bracket: string, x: string, y: string)
    requires Close(indent, bracket, x) == Close(indent, bracket, y)
    ensures x == y
  {
    SplitSame("\n", Spaces(indent) + (bracket + x), "\n", Spaces(indent) + (bracket + y));
    SplitSame(Spaces(indent), bracket + x, Spaces(indent), bracket + y);
    SplitSame(bracket, x, bracket, y);
  }

  /** The items from one on, up to the end of the array. */
  ghost function ItemsText(v: Json, from: nat, indent: nat, x: string): string
    requires v.JArray? && from <= |v.items|
  {
    PrintItems(v, from, indent + 2) + Close(indent, "]", x)
  }

  /** What follows an item. */
  ghost function AfterItem(v: Json, from: nat, indent: nat, x: string): string
    requires v.JArray? && from < |v.items|
  {
    if from + 1 == |v.items| then Close(indent, "]", x) else "," + ItemsText(v, from + 1, indent, x)
  }

  lemma ItemsStep(v: Json, from: nat, indent: nat, x: string)
    requires v.JArray? && from < |v.items|
    ensures ItemsText(v, from, indent, x)
         == "\n" + (Spaces(indent + 2) + (Print(v.items[from], indent + 2) + AfterItem(v, from, indent, x)))
    ensures Follows(AfterItem(v, from, indent, x))
    ensures AfterItem(v, from, indent, x)[0] == if from + 1 == |v.items| then '\n' else ','
  {
    hide Print, Close;
    assert from + 1 == |v.items| ==> PrintItems(v, from + 1, indent + 2) == "";
    CloseBegins(indent, "]", x);
  }

  lemma CloseBegins(indent: nat, bracket: string, x: string)
    ensures Close(indent, bracket, x) != "" && Close(indent, bracket, x)[0] == '\n'
  {
  }

  lemma {:induction false} ItemsTell(v: Json, x: string, w: Json, y: string, from: nat, indent: nat)
    requires v.JArray? && w.JArray? && Decodable(v) && Decodable(w) && from < |v.items| && from < |w.items|
    requires ItemsText(v, from, indent, x) == ItemsText(w, from, indent, y)
    ensures v.items[from..] == w.items[from..] && x == y
    decreases v, 0, |v.items| - from
  {
    hide Print, ItemsText, Close, AfterItem;
    ItemsStep(v, from, indent, x);
    ItemsStep(w, from, indent, y);
    var p, q := Print(v.items[from], indent + 2), Print(w.items[from], indent + 2);
    var r, t := AfterItem(v, from, indent, x), AfterItem(w, from, indent, y);
    SplitSame("\n", Spaces(indent + 2) + (p + r), "\n", Spaces(indent + 2) + (q + t));
    SplitSame(Spaces(indent + 2), p + r, Spaces(indent + 2), q + t);
    PrintTells(v.items[from], r, w.items[from], t, indent + 2);
    if from + 1 == |v.items| {
      LastItem(v, from, indent, x);
      LastItem(w, from, indent, y);
      CloseTells(indent, "]", x, y);
    } else {
      NotLastItem(v, from, indent, x);
      NotLastItem(w, from, indent, y);
      SplitSame(",", ItemsText(v, from + 1, indent, x), ",", ItemsText(w, from + 1, indent, y));
      ItemsTell(v, x, w, y, from + 1, indent);
    }
    assert v.items[from..] == [v.items[from]] + v.items[from + 1..];
    assert w.items[from..] == [w.items[from]] + w.items[from + 1..];
  }

  lemma LastItem(v: Json, from: nat, indent: nat, x: string)
    requires v.JArray? && from + 1 == |v.items|
    ensures AfterItem(v, from, indent, x) == Close(indent, "]", x)
  {
  }

  lemma NotLastItem(v: Json, from: nat, indent: nat, x: string)
    requires v.JArray? && from + 1 < |v.items|
    ensures AfterItem(v, from, indent, x) == "," + ItemsText(v, from + 1, indent, x)
  {
  }

  ghost function MembersText(v: Json, keys: seq<string>, indent: nat, x: string): string
    requires v.JObject? && forall k | k in keys :: k in v.members
  {
    PrintMembers(v, keys, indent + 2) + Close(indent, "}", x)
  }

  /** What follows a member. */
  ghost function AfterMember(v: Json, keys: seq<string>, indent: nat, x: string): string
    requires v.JObject? && keys != [] && forall k | k in keys :: k in v.members
  {
    if |keys| == 1 then Close(indent, "}", x) else "," + MembersText(v, keys[1..], indent, x)
  }

  ghost function MemberText(v: Json, keys: seq<string>, indent: nat, x: string): string
    requires v.JObject? && keys != [] && forall k | k in keys :: k in v.members
  {
    Quote(keys[0]) + (": " + (Print(v.members[keys[0]], indent + 2) + AfterMember(v, keys, indent, x)))
  }

  lemma Regrouped(a: string, b: string, c: string, d: string, e: string, f: string, g: string, h: string)
    ensures a + b + c + d + e + f + g + h == a + (b + (c + (d + (e + (f + (g + h))))))
  {
  }

  lemma AfterMemberIs(v: Json, keys: seq<string>, indent: nat, x: string)
    requires v.JObject? && keys != [] && forall k | k in keys :: k in v.members
    ensures AfterMember(v, keys, indent, x)
         == (if |keys| == 1 then "" else ",") + (PrintMembers(v, keys[1..], indent + 2) + Close(indent, "}", x))
  {
    hide Print, Close;
    if |keys| == 1 {
      assert PrintMembers(v, keys[1..], indent + 2) == "";
    }
  }

  lemma MembersStep(v: Json, keys: seq<string>, indent: nat, x: string)
    requires v.JObject? && keys != [] && forall k | k in keys :: k in v.members
    ensures MembersText(v, keys, indent, x) == "\n" + (Spaces(indent + 2) + MemberText(v, keys, indent, x))
    ensures Follows(AfterMember(v, keys, indent, x))
    ensures AfterMember(v, keys, indent, x)[0] == if |keys| == 1 then '\n' else ','
  {
    hide Print, Close, Quote, Spaces;
    CloseBegins(indent, "}", x);
    var comma, rest := if |keys| == 1 then "" else ",", PrintMembers(v, keys[1..], indent + 2);
    Regrouped("\n", Spaces(indent + 2), Quote(keys[0]), ": ", Print(v.members[keys[0]], indent + 2), comma, rest,
              Close(indent, "}", x));
    AfterMemberIs(v, keys, indent, x);
  }

  lemma {:induction false} MembersTell(v: Json, ks: seq<string>, x: string, w: Json, ls: seq<string>, y: string,
                                       indent: nat)
    requires v.JObject? && w.JObject? && Decodable(v) && Decodable(w) && ks != [] && ls != []
    requires (forall k | k in ks :: k in v.members) && forall k | k in ls :: k in w.members
    requires MembersText(v, ks, indent, x) == MembersText(w, ls, indent, y)
    ensures ks == ls && x == y && forall k | k in ks :: v.members[k] == w.members[k]
    decreases v, 0, |ks|
  {
    hide Print, Quote, MembersText, Close, AfterMember;
    MembersStep(v, ks, indent, x);
    MembersStep(w, ls, indent, y);
    SplitSame("\n", Spaces(indent + 2) + MemberText(v, ks, indent, x), "\n",
              Spaces(indent + 2) + MemberText(w, ls, indent, y));
    SplitSame(Spaces(indent + 2), MemberText(v, ks, indent, x), Spaces(indent + 2), MemberText(w, ls, indent, y));
    var p, q := Print(v.members[ks[0]], indent + 2), Print(w.members[ls[0]], indent + 2);
    var r, t := AfterMember(v, ks, indent, x), AfterMember(w, ls, indent, y);
    TextsTell(ks[0], ": " + (p + r), ls[0], ": " + (q + t));
    SplitSame(": ", p + r, ": ", q + t);
    PrintTells(v.members[ks[0]], r, w.members[ls[0]], t, indent + 2);
    if |ks| == 1 {
      LastMember(v, ks, indent, x);
      LastMember(w, ls, indent, y);
      CloseTells(indent, "}", x, y);
      assert ks == [ks[0]] && ls == [ls[0]];
    } else {
      NotLastMember(v, ks, indent, x);
      NotLastMember(w, ls, indent, y);
      SplitSame(",", MembersText(v, ks[1..], indent, x), ",", MembersText(w, ls[1..], indent, y));
      MembersTell(v, ks[1..], x, w, ls[1..], y, indent);
      assert ks == [ks[0]] + ks[1..] && ls == [ls[0]] + ls[1..];
    }
  }

  lemma LastMember(v: Json, keys: seq<string>, indent: nat, x: string)
    requires v.JObject? && |keys| == 1 && forall k | k in keys :: k in v.members
    ensures AfterMember(v, keys, indent, x) == Close(indent, "}", x)
  {
  }

  lemma NotLastMember(v: Json, keys: seq<string>, indent: nat, x: string)
    requires v.JObject? && |keys| > 1 && forall k | k in keys :: k in v.members
    ensures AfterMember(v, keys, indent, x) == "," + MembersText(v, keys[1..], indent, x)
  {
  }

  // ----- All values -----

  lemma ArrayText(v: Json, indent: nat, x: string)
    requires v.JArray?
    ensures var t := Print(v, indent) + x;
            && t == (if v.items == [] then "[]" + x else "[" + ItemsText(v, 0, indent, x))
            && |t| > 1 && t[1] == if v.items == [] then ']' else '\n'
  {
    hide PrintItems;
    if v.items != [] {
      ItemsStep(v, 0, indent, x);
    }
  }

  ghost function KeysOf(v: Json): (keys: seq<string>)
    requires v.JObject?
    ensures forall k | k in keys :: k in v.members
    ensures |keys| == |v.members|
  {
    var keys := Sorted(v.members.Keys);
    assert forall k | k in keys :: k in Elements(keys);
    keys
  }

  lemma ObjectText(v: Json, indent: nat, x: string)
    requires v.JObject?
    ensures v.members != map[] ==> KeysOf(v) != []
    ensures var t := Print(v, indent) + x;
            && t == (if v.members == map[] then "{}" + x else "{" + MembersText(v, KeysOf(v), indent, x))
            && |t| > 1 && t[1] == if v.members == map[] then '}' else '\n'
  {
    hide PrintMembers, Sorted, Ascending, Elements;
    if v.members != map[] {
      assert |v.members| > 0;
      MembersStep(v, KeysOf(v), indent, x);
      ObjectBody(v, indent, x);
    }
  }

  lemma ObjectBody(v: Json, indent: nat, x: string)
    requires v.JObject? && v.members != map[]
    ensures Print(v, indent) + x == "{" + MembersText(v, KeysOf(v), indent, x)
  {
    hide PrintMembers, Sorted, Ascending, Elements;
    var body := PrintMembers(v, KeysOf(v), indent + 2);
    assert Print(v, indent) == "{" + body + "\n" + Spaces(indent) + "}";
    assert "{" + body + "\n" + Spaces(indent) + "}" + x == "{" + (body + ("\n" + (Spaces(indent) + ("}" + x))));
  }

  lemma {:induction false} ArraysTell(v: Json, x: string, w: Json, y: string, indent: nat)
    requires v.JArray? && w.JArray? && Decodable(v) && Decodable(w) && Print(v, indent) + x == Print(w, indent) + y
    ensures v == w && x == y
    decreases v, 0, |v.items| + 1
  {
    hide Print, ItemsText, Decodable;
    ArrayText(v, indent, x);
    ArrayText(w, indent, y);
    if v.items == [] {
      SplitSame("[]", x, "[]", y);
    } else {
      SplitSame("[", ItemsText(v, 0, indent, x), "[", ItemsText(w, 0, indent, y));
      ItemsTell(v, x, w, y, 0, indent);
      assert v.items[0..] == v.items && w.items[0..] == w.items;
    }
  }

  lemma {:induction false} ObjectsTell(v: Json, x: string, w: Json, y: string, indent: nat)
    requires v.JObject? && w.JObject? && Decodable(v) && Decodable(w) && Print(v, indent) + x == Print(w, indent) + y
    ensures v == w && x == y
    decreases v, 0, |KeysOf(v)| + 1
  {
    hide Print, MembersText, Decodable, KeysOf;
    ObjectText(v, indent, x);
    ObjectText(w, indent, y);
    if v.members == map[] {
      SplitSame("{}", x, "{}", y);
    } else {
      SplitSame("{", MembersText(v, KeysOf(v), indent, x), "{", MembersText(w, KeysOf(w), indent, y));
      MembersTell(v, KeysOf(v), x, w, KeysOf(w), y, indent);
      SameMembers(v, w);
    }
  }

  lemma SameMembers(v: Json, w: Json)
    requires v.JObject? && w.JObject? && KeysOf(v) == KeysOf(w) && forall k | k in KeysOf(v) ::
             v.members[k] == w.members[k]
    ensures v == w
  {
    hide Ascending, Sorted;
    assert v.members.Keys == Elements(KeysOf(v)) == w.members.Keys;
    forall k | k in v.members ensures v.members[k] == w.members[k] {
      KeySorted(v.members.Keys, k);
    }
    assert v.members == w.members;
  }

  lemma KeySorted(keys: set<string>, k: string)
    requires k in keys
    ensures k in Sorted(keys)
  {
    assert k in Elements(Sorted(keys));
  }

  /** Two printed values, with anything that can follow a value behind them, are told apart. */
  lemma {:induction false} PrintTells(v: Json, x: string, w: Json, y: string, indent: nat)
    requires Decodable(v) && Decodable(w) && Follows(x) && Follows(y)
    requires Print(v, indent) + x == Print(w, indent) + y
    ensures v == w && x == y
    decreases v, 1, 0
  {
    hide Decodable;
    Begins(v, indent, x);
    Begins(w, indent, y);
    match v
    case JArray(_) => ArraysTell(v, x, w, y, indent);
    case JObject(_) => ObjectsTell(v, x, w, y, indent);
    case _ => ScalarsTell(v, x, w, y);
  }

  /** Equal canonical texts are texts of one value. */
  lemma CanonicalTextTells(v: Json, w: Json)
    requires Decodable(v) && Decodable(w) && CanonicalText(v) == CanonicalText(w)
    ensures v == w
  {
    hide Print, Decodable;
    PrintTells(v, "\n", w, "\n", 0);
  }
}
