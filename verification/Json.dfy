/** JSON values, the canonical printer json.MarshalIndent(value, "", "  ") and the size check
    that runs before it. Models encodeJSON and checkJSONBudget of
    internal/configdoc/canonical.go. */
module Json {
  import opened Ordering

  const MAX_CONFIG_BYTES: nat := 5 * 1024 * 1024

  /** A decoded JSON value. A number keeps its lexeme (json.Decoder.UseNumber). */
  datatype Json =
    | JNull
    | JBool(value: bool)
    | JNumber(lexeme: string)
    | JString(text: string)
    | JArray(items: seq<Json>)
    | JObject(members: map<string, Json>)

  // ----- String literals, as encoding/json escapes them (HTML-safe) -----

  function Hex(d: nat): char
    requires d < 16
  {
    "0123456789abcdef"[d]
  }

  function EscapeAscii(c: char): string
    requires c as int < 0x80
  {
    if c == '\\' || c == '"' then ['\\', c]
    else if c as int == 8 then "\\b"
    else if c as int == 12 then "\\f"
    else if c == '\n' then "\\n"
    else if c == '\r' then "\\r"
    else if c == '\t' then "\\t"
    else if c as int < 0x20 || c == '<' || c == '>' || c == '&' then
      "\\u00" + [Hex(c as int / 16), Hex(c as int % 16)]
    else [c]
  }

  predicate ByteIn(s: string, i: nat, lo: nat, hi: nat) {
    i < |s| && lo <= s[i] as int <= hi
  }

  /** The length of the UTF-8 sequence s starts with, 0 when it is not well formed. */
  function RuneLength(s: string): (n: nat)
    ensures n <= |s|
  {
    if ByteIn(s, 0, 0, 0x7f) then 1
    else if ByteIn(s, 0, 0xc2, 0xdf) && ByteIn(s, 1, 0x80, 0xbf) then 2
    else if ByteIn(s, 2, 0x80, 0xbf) &&
            (|| (ByteIn(s, 0, 0xe0, 0xe0) && ByteIn(s, 1, 0xa0, 0xbf))
             || (ByteIn(s, 0, 0xed, 0xed) && ByteIn(s, 1, 0x80, 0x9f))
             || (ByteIn(s, 0, 0xe1, 0xef) && !ByteIn(s, 0, 0xed, 0xed) && ByteIn(s, 1, 0x80, 0xbf))) then 3
    else if ByteIn(s, 2, 0x80, 0xbf) && ByteIn(s, 3, 0x80, 0xbf) &&
            (|| (ByteIn(s, 0, 0xf0, 0xf0) && ByteIn(s, 1, 0x90, 0xbf))
             || (ByteIn(s, 0, 0xf4, 0xf4) && ByteIn(s, 1, 0x80, 0x8f))
             || (ByteIn(s, 0, 0xf1, 0xf3) && ByteIn(s, 1, 0x80, 0xbf))) then 4
    else 0
  }

  function Escape(s: string): string {
    if s == "" then ""
    else if s[0] as int < 0x80 then EscapeAscii(s[0]) + Escape(s[1..])
    else
      var n := RuneLength(s);
      if n == 0 then "\\ufffd" + Escape(s[1..])
      else if n == 3 && s[0] as int == 0xe2 && s[1] as int == 0x80 && s[2] as int == 0xa8 then
        "\\u2028" + Escape(s[3..])
      else if n == 3 && s[0] as int == 0xe2 && s[1] as int == 0x80 && s[2] as int == 0xa9 then
        "\\u2029" + Escape(s[3..])
      else s[..n] + Escape(s[n..])
  }

  function Quote(s: string): string {
    "\"" + Escape(s) + "\""
  }

  /** Escaping never shortens a string: the early cut-off of the size check is sound. */
  lemma {:induction false} QuoteLength(s: string)
    ensures |Quote(s)| >= |s| + 2
  {
    if s != "" {
      var n := if s[0] as int < 0x80 || RuneLength(s) == 0 then 1 else RuneLength(s);
      QuoteLength(s[n..]);
    }
  }

  // ----- The printer -----

  function Spaces(n: nat): string {
    seq(n, _ => ' ')
  }

  function Scalar(v: Json): string
    requires !v.JArray? && !v.JObject?
  {
    match v
    case JNull => "null"
    case JBool(value) => if value then "true" else "false"
    case JNumber(lexeme) => lexeme
    case JString(text) => Quote(text)
  }

  /** json.MarshalIndent with a two-space indent, the value starting at column `indent`. */
  ghost function Print(v: Json, indent: nat): string
    decreases v, 1, 0
  {
    match v
    case JObject(members) =>
      if members == map[] then "{}"
      else "{" + PrintMembers(v, Sorted(members.Keys), indent + 2) + "\n" + Spaces(indent) + "}"
    case JArray(items) =>
      if items == [] then "[]"
      else "[" + PrintItems(v, 0, indent + 2) + "\n" + Spaces(indent) + "]"
    case _ => Scalar(v)
  }

  ghost function PrintMembers(v: Json, keys: seq<string>, indent: nat): string
    requires v.JObject? && forall k | k in keys :: k in v.members
    decreases v, 0, |keys|
  {
    if keys == [] then ""
    else
      "\n" + Spaces(indent) + Quote(keys[0]) + ": " + Print(v.members[keys[0]], indent)
      + (if |keys| == 1 then "" else ",") + PrintMembers(v, keys[1..], indent)
  }

  ghost function PrintItems(v: Json, from: nat, indent: nat): string
    requires v.JArray? && from <= |v.items|
    decreases v, 0, |v.items| - from
  {
    if from == |v.items| then ""
    else
      "\n" + Spaces(indent) + Print(v.items[from], indent)
      + (if from + 1 == |v.items| then "" else ",") + PrintItems(v, from + 1, indent)
  }

  // ----- Its length -----

  /** What the size check charges for each member: newline, indent, key, colon and space, value. */
  ghost function MemberSize(v: Json, key: string, indent: nat): nat
    requires v.JObject? && key in v.members
  {
    indent + 5 + |Quote(key)| + |Print(v.members[key], indent + 2)|
  }

  ghost function MemberSizes(v: Json, indent: nat): (sizes: map<string, nat>)
    requires v.JObject?
    ensures sizes.Keys == v.members.Keys
  {
    map k | k in v.members :: MemberSize(v, k, indent)
  }

  lemma {:induction false} PrintMembersLength(v: Json, keys: seq<string>, indent: nat)
    requires v.JObject? && forall k | k in keys :: k in v.members
    ensures |PrintMembers(v, keys, indent + 2)|
         == SumAlong(MemberSizes(v, indent), keys) + if keys == [] then 0 else |keys| - 1
  {
    if keys != [] {
      PrintMembersLength(v, keys[1..], indent);
    }
  }

  lemma PrintedObjectLength(v: Json, indent: nat)
    requires v.JObject? && v.members != map[]
    ensures |Print(v, indent)| == 3 + |PrintMembers(v, Sorted(v.members.Keys), indent + 2)| + indent
  {
    hide PrintMembers;
  }

  lemma ObjectLength(v: Json, indent: nat)
    requires v.JObject? && v.members != map[]
    ensures |Print(v, indent)| == 2 + indent + |v.members| + Sum(MemberSizes(v, indent), v.members.Keys)
  {
    hide PrintMembers, MemberSizes, Sum, SumAlong;
    var keys := Sorted(v.members.Keys);
    assert |keys| == |v.members| > 0;
    PrintMembersLength(v, keys, indent);
    SumAlongAscending(MemberSizes(v, indent), keys);
    PrintedObjectLength(v, indent);
  }

  /** What the size check has charged for the items before `upto`. */
  ghost function ItemsSize(v: Json, upto: nat, indent: nat): nat
    requires v.JArray? && upto <= |v.items|
  {
    if upto == 0 then 0
    else ItemsSize(v, upto - 1, indent) + indent + 3 + |Print(v.items[upto - 1], indent + 2)|
  }

  lemma {:induction false} PrintItemsLength(v: Json, from: nat, indent: nat)
    requires v.JArray? && from <= |v.items|
    ensures |PrintItems(v, from, indent + 2)|
         == ItemsSize(v, |v.items|, indent) - ItemsSize(v, from, indent)
            + if from == |v.items| then 0 else |v.items| - from - 1
    decreases |v.items| - from
  {
    hide Print;
    if from < |v.items| {
      PrintItemsLength(v, from + 1, indent);
      assert ItemsSize(v, from + 1, indent) == ItemsSize(v, from, indent) + indent + 3
          + |Print(v.items[from], indent + 2)|;
    }
  }

  lemma {:induction false} ItemsSizeMonotone(v: Json, from: nat, upto: nat, indent: nat)
    requires v.JArray? && from <= upto <= |v.items|
    ensures ItemsSize(v, from, indent) <= ItemsSize(v, upto, indent)
  {
    if from < upto {
      ItemsSizeMonotone(v, from, upto - 1, indent);
    }
  }

  // ----- The size check -----

  /** The default branch of checkJSONBudget, with its cut-off for long strings. */
  method CheckScalarBudget(v: Json, budget: int) returns (ok: bool, remaining: int)
    requires !v.JArray? && !v.JObject?
    ensures ok <==> |Scalar(v)| <= budget
    ensures ok ==> remaining == budget - |Scalar(v)|
  {
    remaining := budget;
    if remaining < 0 {
      return false, remaining;
    }
    if v.JString? && |v.text| > remaining - 2 {
      QuoteLength(v.text);
      return false, remaining;
    }
    remaining := remaining - |Scalar(v)|;
    ok := remaining >= 0;
  }

  /** What one more member does to the running sum. */
  lemma MemberStep(v: Json, indent: nat, seen: set<string>, key: string)
    requires v.JObject? && seen <= v.members.Keys && key in v.members && key !in seen
    ensures var sizes := MemberSizes(v, indent);
            && Sum(sizes, seen + {key}) == Sum(sizes, seen) + MemberSize(v, key, indent)
            && Sum(sizes, seen + {key}) <= Sum(sizes, v.members.Keys)
  {
    SumAdd(MemberSizes(v, indent), seen, key);
    SumMonotone(MemberSizes(v, indent), seen + {key}, v.members.Keys);
  }

  /** One pass through the loop over an object's members. */
  method CheckMember(v: Json, key: string, indent: nat, budget: int) returns (ok: bool, remaining: int)
    requires v.JObject? && key in v.members
    ensures ok <==> MemberSize(v, key, indent) <= budget
    ensures ok ==> remaining == budget - MemberSize(v, key, indent)
    decreases v, 0, 0
  {
    remaining := budget - (indent + 5); // entry indent, colon, space and newline
    ok, remaining := CheckScalarBudget(JString(key), remaining);
    if ok {
      ok, remaining := CheckJsonBudget(v.members[key], indent + 2, remaining);
    }
  }

  /** The loop over an object's members, in whatever order the map yields them. */
  method CheckMembers(v: Json, indent: nat, budget: int) returns (ok: bool, remaining: int)
    requires v.JObject?
    ensures ok <==> Sum(MemberSizes(v, indent), v.members.Keys) <= budget
    ensures ok ==> remaining == budget - Sum(MemberSizes(v, indent), v.members.Keys)
    decreases v, 0, 1
  {
    var unseen := v.members.Keys;
    ghost var seen: set<string> := {};
    remaining := budget;
    while unseen != {}
      invariant seen + unseen == v.members.Keys && seen !! unseen
      invariant remaining == budget - Sum(MemberSizes(v, indent), seen)
      decreases unseen
    {
      var key :| key in unseen;
      MemberStep(v, indent, seen, key);
      ok, remaining := CheckMember(v, key, indent, remaining);
      if !ok {
        return;
      }
      unseen, seen := unseen - {key}, seen + {key};
    }
    assert seen == v.members.Keys;
    ok := remaining >= 0;
  }

  method CheckItems(v: Json, indent: nat, budget: int) returns (ok: bool, remaining: int)
    requires v.JArray?
    ensures ok <==> ItemsSize(v, |v.items|, indent) <= budget
    ensures ok ==> remaining == budget - ItemsSize(v, |v.items|, indent)
    decreases v, 0, 0
  {
    remaining := budget;
    for i := 0 to |v.items|
      invariant remaining == budget - ItemsSize(v, i, indent)
    {
      ItemsSizeMonotone(v, i + 1, |v.items|, indent);
      remaining := remaining - (indent + 3);
      ok, remaining := CheckJsonBudget(v.items[i], indent + 2, remaining);
      if !ok {
        return;
      }
    }
    ok := remaining >= 0;
  }

  /** Subtracts exactly the printed size from the budget, whatever order the members are
      visited in, and refuses exactly the values whose printed form does not fit. */
  method CheckJsonBudget(v: Json, indent: nat, budget: int) returns (ok: bool, remaining: int)
    ensures ok <==> |Print(v, indent)| <= budget
    ensures ok ==> remaining == budget - |Print(v, indent)|
    decreases v, 1, 0
  {
    remaining := budget;
    if remaining < 0 {
      return false, remaining;
    }
    match v
    case JObject(members) =>
      remaining := remaining - 2; // braces
      if |members| > 0 {
        remaining := remaining - (indent + |members|); // opening newline, closing indent, commas
        ObjectLength(v, indent);
      }
      ok, remaining := CheckMembers(v, indent, remaining);
    case JArray(items) =>
      remaining := remaining - 2; // brackets
      if |items| > 0 {
        remaining := remaining - (indent + |items|);
        PrintItemsLength(v, 0, indent);
      }
      ok, remaining := CheckItems(v, indent, remaining);
    case _ =>
      ok, remaining := CheckScalarBudget(v, remaining);
  }

  /** The canonical text of a value: its printed form and a final newline. */
  ghost function CanonicalText(v: Json): string {
    Print(v, 0) + "\n"
  }

  /** encodeJSON succeeds exactly when the canonical text fits in 5 MiB. */
  method EncodeJson(v: Json) returns (ok: bool, ghost content: string)
    ensures ok <==> |CanonicalText(v)| <= MAX_CONFIG_BYTES
    ensures ok ==> content == CanonicalText(v)
  {
    var remaining;
    ok, remaining := CheckJsonBudget(v, 0, MAX_CONFIG_BYTES - 1);
    content := CanonicalText(v);
  }
}
