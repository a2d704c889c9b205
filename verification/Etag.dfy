/** The text hashed into the ETag of a resolved Config or of a Vault file. Models
    resolvedConfigETag and vaultFileETag of internal/storage/mysqlstore/machine.go; SHA-256 and its
    base64 form are taken as injective, so this text stands for the ETag itself. */
module Etags {
  import opened Ordering
  import opened Encoding
  import opened References

  datatype ItemKey = ItemKey(namespaceKey: string, itemKey: string) {
    /** vaultItemIdentity.revisionKey. */
    function Text(): string {
      namespaceKey + "." + itemKey
    }

    predicate Valid() {
      ValidResourceKey(namespaceKey) && ValidResourceKey(itemKey)
    }
  }

  datatype Version = Version(itemId: string, revision: nat) {
    predicate Valid() {
      |itemId| == 16 && revision < UINT64_LIMIT
    }
  }

  type Items = map<ItemKey, Version>

  predicate ValidItems(items: Items) {
    forall k | k in items :: k.Valid() && items[k].Valid()
  }

  const CONFIG_LABEL := "configra:resolved-config-etag:v1\0"
  const FILE_LABEL := "configra:vault-file-etag:v1\0"

  function Entry(k: ItemKey, v: Version): string {
    Prefixed(k.namespaceKey) + Prefixed(k.itemKey) + v.itemId + Uint64(v.revision)
  }

  function Entries(order: seq<ItemKey>, items: Items): string
    requires forall k | k in order :: k in items
  {
    if order == [] then "" else Entry(order[0], items[order[0]]) + Entries(order[1..], items)
  }

  function TextOf(k: ItemKey): string {
    k.Text()
  }

  ghost predicate Arranged(order: seq<ItemKey>) {
    AscendingBy(order, TextOf)
  }

  /** The keys of the map in the order in which they are hashed. */
  ghost predicate InOrder(order: seq<ItemKey>, items: Items) {
    Elements(order) == items.Keys && Arranged(order)
  }

  function ConfigText(configId: string, revision: nat, order: seq<ItemKey>, items: Items): string
    requires forall k | k in order :: k in items
  {
    CONFIG_LABEL + configId + Uint64(revision) + Entries(order, items)
  }

  function FileText(itemId: string, revision: nat, fieldKey: string): string {
    FILE_LABEL + itemId + Uint64(revision) + Prefixed(fieldKey)
  }

  // ----- The order is determined by the map -----

  lemma TextInjective(a: ItemKey, b: ItemKey)
    requires a.Valid() && b.Valid() && a.Text() == b.Text()
    ensures a == b
  {
    SplitCons(a.namespaceKey, a.itemKey);
    SplitCons(b.namespaceKey, b.itemKey);
    SplitDotless(a.itemKey);
    SplitDotless(b.itemKey);
    assert Split(a.Text())[0] == a.namespaceKey && Split(a.Text())[1] == a.itemKey;
    assert Split(b.Text())[0] == b.namespaceKey && Split(b.Text())[1] == b.itemKey;
  }

  lemma InsertedAt(order: seq<ItemKey>, at: nat, k: ItemKey, i: nat)
    requires at <= |order| && i <= |order|
    ensures (order[..at] + [k] + order[at..])[i] == if i < at then order[i] else if i == at then k else order[i - 1]
  {
  }

  lemma InsertedElements(order: seq<ItemKey>, at: nat, k: ItemKey)
    requires at <= |order|
    ensures Elements(order[..at] + [k] + order[at..]) == Elements(order) + {k}
  {
    assert order == order[..at] + order[at..];
  }

  lemma InsertArranged(order: seq<ItemKey>, at: nat, k: ItemKey)
    requires Arranged(order) && at <= |order|
    requires forall i | 0 <= i < at :: Less(order[i].Text(), k.Text())
    requires forall i | at <= i < |order| :: Less(k.Text(), order[i].Text())
    ensures Arranged(order[..at] + [k] + order[at..])
    ensures Elements(order[..at] + [k] + order[at..]) == Elements(order) + {k}
  {
    hide Less;
    var more := order[..at] + [k] + order[at..];
    InsertedElements(order, at, k);
    forall i, j | 0 <= i < j < |more| ensures Less(TextOf(more[i]), TextOf(more[j])) {
      InsertedAt(order, at, k, i);
      InsertedAt(order, at, k, j);
    }
  }

  predicate Distinct(keys: seq<ItemKey>) {
    forall i, j | 0 <= i < j < |keys| :: keys[i] != keys[j]
  }

  /** slices.SortFunc by revisionKey, on keys with distinct texts. */
  method SortByText(keys: seq<ItemKey>) returns (order: seq<ItemKey>)
    requires forall i | 0 <= i < |keys| :: keys[i].Valid()
    requires Distinct(keys)
    ensures Arranged(order) && Elements(order) == Elements(keys)
  {
    order := [];
    for n := 0 to |keys|
      invariant Arranged(order) && Elements(order) == Elements(keys[..n])
    {
      var k := keys[n];
      var at := 0;
      while at < |order| && Less(order[at].Text(), k.Text())
        invariant 0 <= at <= |order|
        invariant forall i | 0 <= i < at :: Less(order[i].Text(), k.Text())
      {
        at := at + 1;
      }
      AfterPlace(order, at, k, keys, n);
      InsertArranged(order, at, k);
      order := order[..at] + [k] + order[at..];
      assert keys[..n + 1] == keys[..n] + [k];
    }
    assert keys[..|keys|] == keys;
  }

  lemma AfterPlace(order: seq<ItemKey>, at: nat, k: ItemKey, keys: seq<ItemKey>, n: nat)
    requires n < |keys| && k == keys[n] && Arranged(order) && Elements(order) == Elements(keys[..n])
    requires forall i | 0 <= i < |keys| :: keys[i].Valid()
    requires Distinct(keys)
    requires at <= |order| && (at < |order| ==> !Less(order[at].Text(), k.Text()))
    ensures forall i | at <= i < |order| :: Less(k.Text(), order[i].Text())
  {
    if at < |order| {
      assert order[at] in Elements(keys[..n]);
      if order[at].Text() == k.Text() {
        TextInjective(order[at], k);
        assert false;
      }
      LessTotal(k.Text(), order[at].Text());
      forall i | at < i < |order| ensures Less(k.Text(), order[i].Text()) {
        LessTransitive(k.Text(), order[at].Text(), order[i].Text());
      }
    }
  }

  lemma NoKeys()
    ensures Distinct([]) && Elements<ItemKey>([]) == {}
  {
  }

  lemma NewKey(keys: seq<ItemKey>, k: ItemKey)
    requires k !in Elements(keys) && Distinct(keys)
    ensures Elements(keys + [k]) == Elements(keys) + {k} && Distinct(keys + [k])
  {
    assert forall i | 0 <= i < |keys| :: keys[i] in Elements(keys);
  }

  /** The keys in whatever order the map yields them. */
  method CollectKeys(items: Items) returns (keys: seq<ItemKey>)
    ensures Elements(keys) == items.Keys
    ensures Distinct(keys)
  {
    hide Elements, Distinct;
    keys := [];
    NoKeys();
    var left := items.Keys;
    while left != {}
      invariant Elements(keys) + left == items.Keys && Elements(keys) !! left
      invariant Distinct(keys)
      decreases |left|
    {
      var k :| k in left;
      NewKey(keys, k);
      keys := keys + [k];
      left := left - {k};
    }
  }

  /** The text for a map, whatever the order its keys are met in. */
  ghost predicate IsConfigText(text: string, configId: string, revision: nat, items: Items) {
    exists order :: InOrder(order, items) && (forall k | k in order :: k in items)
                    && text == ConfigText(configId, revision, order, items)
  }

  lemma Collected(items: Items, keys: seq<ItemKey>)
    requires ValidItems(items) && Elements(keys) == items.Keys
    ensures forall i | 0 <= i < |keys| :: keys[i].Valid()
  {
    assert forall i | 0 <= i < |keys| :: keys[i] in Elements(keys);
  }

  lemma ConfigTextIs(configId: string, revision: nat, items: Items, sorted: seq<ItemKey>)
    requires Elements(sorted) == items.Keys
    ensures forall k | k in sorted :: k in items
    ensures ConfigText(configId, revision, sorted, items) == CONFIG_LABEL + configId + Uint64(revision)
            + Entries(sorted, items)
    ensures sorted[0..] == sorted
  {
    assert forall k | k in sorted :: k in Elements(sorted);
  }

  /** resolvedConfigETag: the keys are collected, sorted, and fed to the hash one by one. */
  method ResolvedConfigEtag(configId: string, revision: nat, items: Items) returns (written: string)
    requires ValidItems(items)
    ensures IsConfigText(written, configId, revision, items)
  {
    hide Prefixed, Uint64, Entry, Distinct, Elements, Arranged, ConfigText;
    var keys := CollectKeys(items);
    Collected(items, keys);
    var sorted := SortByText(keys);
    ConfigTextIs(configId, revision, items, sorted);
    written := CONFIG_LABEL + configId + Uint64(revision);
    for i := 0 to |sorted|
      invariant written + Entries(sorted[i..], items) == ConfigText(configId, revision, sorted, items)
    {
      var k, before := sorted[i], written;
      written := WriteEntry(written, k, items[k]);
      EntriesStep(before, sorted, i, items);
    }
  }

  method WriteEntry(written: string, k: ItemKey, v: Version) returns (more: string)
    ensures more == written + Entry(k, v)
  {
    more := written + Prefixed(k.namespaceKey);
    more := more + Prefixed(k.itemKey);
    more := more + v.itemId;
    more := more + Uint64(v.revision);
  }

  lemma EntriesStep(before: string, order: seq<ItemKey>, i: nat, items: Items)
    requires i < |order| && forall k | k in order :: k in items
    ensures before + Entries(order[i..], items)
         == before + Entry(order[i], items[order[i]]) + Entries(order[i + 1..], items)
  {
    assert order[i..][1..] == order[i + 1..];
  }

  // ----- The hashed text determines what it describes -----

  lemma EntryDecodes(k: ItemKey, v: Version, x: string, l: ItemKey, w: Version, y: string)
    requires k.Valid() && v.Valid() && l.Valid() && w.Valid()
    requires Entry(k, v) + x == Entry(l, w) + y
    ensures k == l && v == w && x == y
  {
    hide Prefixed, Uint64;
    var a2, b2 := Uint64(v.revision) + x, Uint64(w.revision) + y;
    var a1, b1 := Prefixed(k.itemKey) + (v.itemId + a2), Prefixed(l.itemKey) + (w.itemId + b2);
    assert Entry(k, v) + x == Prefixed(k.namespaceKey) + a1;
    assert Entry(l, w) + y == Prefixed(l.namespaceKey) + b1;
    PrefixedDecodes(k.namespaceKey, a1, l.namespaceKey, b1);
    PrefixedDecodes(k.itemKey, v.itemId + a2, l.itemKey, w.itemId + b2);
    SplitAt(v.itemId, a2, w.itemId, b2);
    Uint64Decodes(v.revision, x, w.revision, y);
  }

  lemma EntryNotEmpty(k: ItemKey, v: Version)
    ensures Entry(k, v) != ""
  {
  }

  lemma {:induction false} EntriesDecode(xs: seq<ItemKey>, a: Items, ys: seq<ItemKey>, b: Items)
    requires ValidItems(a) && ValidItems(b) && (forall k | k in xs :: k in a) && (forall k | k in ys :: k in b)
    requires Entries(xs, a) == Entries(ys, b)
    ensures xs == ys && forall k | k in xs :: a[k] == b[k]
  {
    hide Entry;
    if xs != [] && ys != [] {
      EntryDecodes(xs[0], a[xs[0]], Entries(xs[1..], a), ys[0], b[ys[0]], Entries(ys[1..], b));
      EntriesDecode(xs[1..], a, ys[1..], b);
      assert xs == [xs[0]] + xs[1..] && ys == [ys[0]] + ys[1..];
    } else if xs != [] {
      EntryNotEmpty(xs[0], a[xs[0]]);
    } else if ys != [] {
      EntryNotEmpty(ys[0], b[ys[0]]);
    }
  }

  lemma OrderedTextDetermines(c: string, r: nat, xs: seq<ItemKey>, a: Items, d: string, s: nat, ys: seq<ItemKey>,
                              b: Items)
    requires |c| == |d| == 16 && r < UINT64_LIMIT && s < UINT64_LIMIT && ValidItems(a) && ValidItems(b)
    requires InOrder(xs, a) && InOrder(ys, b) && (forall k | k in xs :: k in a) && forall k | k in ys :: k in b
    requires ConfigText(c, r, xs, a) == ConfigText(d, s, ys, b)
    ensures c == d && r == s && a == b
  {
    hide Uint64, Entries;
    var x, y := Uint64(r) + Entries(xs, a), Uint64(s) + Entries(ys, b);
    assert ConfigText(c, r, xs, a) == CONFIG_LABEL + (c + x) && ConfigText(d, s, ys, b) == CONFIG_LABEL + (d + y);
    SplitAt(CONFIG_LABEL, c + x, CONFIG_LABEL, d + y);
    SplitAt(c, x, d, y);
    Uint64Decodes(r, Entries(xs, a), s, Entries(ys, b));
    EntriesDecode(xs, a, ys, b);
    assert a.Keys == b.Keys;
    forall k | k in a ensures a[k] == b[k] {
      assert k in Elements(xs);
    }
  }

  /** Equal ETags mean the same Config, the same revision and the same version of every item. */
  lemma ConfigTextDetermines(text: string, c: string, r: nat, a: Items, d: string, s: nat, b: Items)
    requires |c| == |d| == 16 && r < UINT64_LIMIT && s < UINT64_LIMIT && ValidItems(a) && ValidItems(b)
    requires IsConfigText(text, c, r, a) && IsConfigText(text, d, s, b)
    ensures c == d && r == s && a == b
  {
    hide ConfigText, InOrder, ValidItems;
    var xs :| InOrder(xs, a) && (forall k | k in xs :: k in a) && text == ConfigText(c, r, xs, a);
    var ys :| InOrder(ys, b) && (forall k | k in ys :: k in b) && text == ConfigText(d, s, ys, b);
    OrderedTextDetermines(c, r, xs, a, d, s, ys, b);
  }

  /** The text, and so the ETag, does not depend on the order in which the map is walked. */
  lemma ConfigTextUnique(c: string, r: nat, items: Items, text: string, other: string)
    requires IsConfigText(text, c, r, items) && IsConfigText(other, c, r, items)
    ensures text == other
  {
    hide ConfigText, AscendingBy;
    var xs :| InOrder(xs, items) && (forall k | k in xs :: k in items) && text == ConfigText(c, r, xs, items);
    var ys :| InOrder(ys, items) && (forall k | k in ys :: k in items) && other == ConfigText(c, r, ys, items);
    AscendingByUnique(xs, ys, TextOf);
  }

  /** A file ETag determines its item, revision and field, and is never a Config's. */
  lemma FileTextDetermines(i: string, r: nat, f: string, j: string, s: nat, g: string)
    requires |i| == |j| == 16 && r < UINT64_LIMIT && s < UINT64_LIMIT && |f| < UINT32_LIMIT && |g| < UINT32_LIMIT
    requires FileText(i, r, f) == FileText(j, s, g)
    ensures i == j && r == s && f == g
  {
    hide Uint64, Prefixed;
    var x, y := Uint64(r) + Prefixed(f), Uint64(s) + Prefixed(g);
    assert FileText(i, r, f) == FILE_LABEL + (i + x) && FileText(j, s, g) == FILE_LABEL + (j + y);
    SplitAt(FILE_LABEL, i + x, FILE_LABEL, j + y);
    SplitAt(i, x, j, y);
    Uint64Decodes(r, Prefixed(f), s, Prefixed(g));
    assert Prefixed(f) + "" == Prefixed(f) && Prefixed(g) + "" == Prefixed(g);
    PrefixedDecodes(f, "", g, "");
  }

  lemma FileNotConfig(i: string, r: nat, f: string, c: string, s: nat, order: seq<ItemKey>, items: Items)
    requires forall k | k in order :: k in items
    ensures FileText(i, r, f) != ConfigText(c, s, order, items)
  {
    hide Uint64, Prefixed, Entries;
    assert FileText(i, r, f)[9] == 'v' && ConfigText(c, s, order, items)[9] == 'r';
  }
}
