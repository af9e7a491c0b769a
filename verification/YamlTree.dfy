// A canonical way to write any tree the configuration subset can hold.
module YamlTree {
  import opened Wrappers
  import opened YamlModel
  import opened YamlInline
  import opened YamlBlocks
  import opened YamlText
  import opened YamlRoundTrip

  // ---- the trees ----

  /** Some quote can stand around it on one line. */
  predicate TextOk(t: string) {
    '\t' !in t && '\n' !in t && ('"' !in t || '\'' !in t)
  }

  predicate KeyOk(k: string) {
    IsKey(k) && !("- " <= k)
  }

  /** Maps and lists are not empty, and keys and texts can be written. */
  ghost predicate TreeOk(node: Node)
    decreases node
  {
    match node
    case Unknown => false
    case Scalar(text) => TextOk(text)
    case Map(m) => m != map[] && forall k :: k in m ==> KeyOk(k) && TreeOk(m[k])
    case List(items) => items != [] && forall i :: 0 <= i < |items| ==> TreeOk(items[i])
  }

  // ---- writing them ----

  function Quote(t: string): Inline {
    Quoted(if '"' in t then '\'' else '"', t)
  }

  // The keys come in an arbitrary order.
  ghost function First(keys: set<string>): string
    requires keys != {}
    ensures First(keys) in keys
  {
    var k :| k in keys; k
  }

  ghost function InlineOf(node: Node): Inline
    decreases node, 3, 0
  {
    match node
    case Unknown => Plain("")
    case Scalar(text) => Quote(text)
    case Map(m) => IMap(FieldsOf(node, m.Keys))
    case List(items) => IList(ItemsOf(items))
  }

  ghost function FieldsOf(node: Node, keys: set<string>): seq<Field>
    requires node.Map? && keys <= node.entries.Keys
    decreases node, 2, |keys|
  {
    if keys == {} then [] else
    var k := First(keys);
    [Field(k, InlineOf(node.entries[k]))] + FieldsOf(node, keys - {k})
  }

  ghost function ItemsOf(items: seq<Node>): seq<Inline>
    decreases items, 2, 0
  {
    if items == [] then [] else [InlineOf(items[0])] + ItemsOf(items[1..])
  }

  // Maps are written as blocks down to the first list; list elements are inline.
  ghost function EntryOf(k: string, node: Node): Entry
    decreases node, 3, 0
  {
    match node
    case Map(m) => Nested(k, BMap(EntriesOf(node, m.Keys)))
    case List(items) => Nested(k, BList(ElementsOf(items)))
    case _ => Leaf(k, InlineOf(node))
  }

  ghost function EntriesOf(node: Node, keys: set<string>): seq<Entry>
    requires node.Map? && keys <= node.entries.Keys
    decreases node, 2, |keys|
  {
    if keys == {} then [] else
    var k := First(keys);
    [EntryOf(k, node.entries[k])] + EntriesOf(node, keys - {k})
  }

  ghost function ElementsOf(items: seq<Node>): seq<Element> {
    if items == [] then [] else [Single(InlineOf(items[0]))] + ElementsOf(items[1..])
  }

  // ---- it can be written, and means the tree ----

  // `r` is `before` with the children under `keys` put in.
  ghost predicate Holds(node: Node, keys: set<string>, before: map<string, Node>, r: map<string, Node>)
    requires node.Map? && keys <= node.entries.Keys
  {
    && r.Keys == before.Keys + keys
    && (forall k :: k in keys ==> r[k] == node.entries[k])
    && (forall k :: k in before && k !in keys ==> r[k] == before[k])
  }

  lemma HoldsOneMore(node: Node, keys: set<string>, k: string, before: map<string, Node>, r: map<string, Node>)
    requires node.Map? && keys <= node.entries.Keys && k in keys
    requires Holds(node, keys - {k}, before[k := node.entries[k]], r)
    ensures Holds(node, keys, before, r)
  {
  }

  lemma HoldsNone(node: Node, before: map<string, Node>)
    requires node.Map?
    ensures Holds(node, {}, before, before)
  {
  }

  lemma HoldsAll(node: Node, r: map<string, Node>)
    requires node.Map? && Holds(node, node.entries.Keys, map[], r)
    ensures r == node.entries
  {
  }

  lemma QuoteIsWritable(t: string, ban: string)
    requires TextOk(t)
    ensures Writable(Quote(t), ban)
  {
  }

  lemma {:induction false} InlineMeansTree(node: Node, ban: string)
    requires TreeOk(node)
    ensures Writable(InlineOf(node), ban) && Value(InlineOf(node)) == node
    decreases node, 3, 0
  {
    match node
    case Scalar(text) =>
      QuoteIsWritable(text, ban);
    case Map(m) =>
      FieldsMeanTree(node, m.Keys, map[]);
      HoldsAll(node, FieldValues(FieldsOf(node, m.Keys), map[]));
      assert FieldsOf(node, m.Keys) != [];
    case List(items) =>
      ItemsMeanTree(items);
  }

  lemma {:induction false} FieldsMeanTree(node: Node, keys: set<string>, before: map<string, Node>)
    requires node.Map? && keys <= node.entries.Keys
    requires forall k :: k in keys ==> KeyOk(k) && TreeOk(node.entries[k])
    ensures forall f :: f in FieldsOf(node, keys) ==> IsKey(f.key) && Writable(f.value, ",")
    ensures Holds(node, keys, before, FieldValues(FieldsOf(node, keys), before))
    decreases node, 2, |keys|
  {
    hide Writable, IsPlain, KeyOk, TreeOk, Holds;
    if keys == {} {
      HoldsNone(node, before);
    } else {
      var k := First(keys);
      KeyIsKey(k);
      InlineMeansTree(node.entries[k], ",");
      FieldsMeanTree(node, keys - {k}, before[k := node.entries[k]]);
      var fields := FieldsOf(node, keys);
      assert fields[0] == Field(k, InlineOf(node.entries[k])) && fields[1..] == FieldsOf(node, keys - {k});
      HoldsOneMore(node, keys, k, before, FieldValues(fields, before));
    }
  }

  lemma KeyIsKey(k: string)
    requires KeyOk(k)
    ensures IsKey(k) && IsBlockKey(k)
  {
    assert forall c: char :: c in ":" ==> c in ",:";
  }

  lemma {:induction false} ItemsMeanTree(items: seq<Node>)
    requires forall i :: 0 <= i < |items| ==> TreeOk(items[i])
    ensures |ItemsOf(items)| == |items| && forall x :: x in ItemsOf(items) ==> Writable(x, ",")
    ensures ItemValues(ItemsOf(items)) == items
    decreases items, 2, 0
  {
    if items != [] {
      hide Writable, TreeOk, InlineOf, Value;
      var x, rest := InlineOf(items[0]), ItemsOf(items[1..]);
      InlineMeansTree(items[0], ",");
      ItemsMeanTree(items[1..]);
      assert ItemsOf(items) == [x] + rest && ([x] + rest)[1..] == rest;
      hide ItemsOf;
      assert ItemValues([x] + rest) == [items[0]] + items[1..];
    }
  }

  lemma {:induction false} ElementsMeanTree(items: seq<Node>)
    requires forall i :: 0 <= i < |items| ==> TreeOk(items[i])
    ensures |ElementsOf(items)| == |items|
    ensures forall x :: x in ElementsOf(items) ==> SafeElement(x) && ProperElement(x)
    ensures MeantElements(ElementsOf(items)) == items
    decreases items
  {
    if items != [] {
      hide Writable, TreeOk, InlineOf, Value;
      var x, rest := Single(InlineOf(items[0])), ElementsOf(items[1..]);
      InlineMeansTree(items[0], ":");
      ElementsMeanTree(items[1..]);
      assert ElementsOf(items) == [x] + rest && ([x] + rest)[1..] == rest;
      hide ElementsOf;
      assert MeantElements([x] + rest) == [items[0]] + items[1..];
    }
  }

  lemma {:induction false} EntryMeansTree(k: string, node: Node)
    requires KeyOk(k) && TreeOk(node)
    ensures var e := EntryOf(k, node);
            e.key == k && SafeEntry(e) && ProperEntry(e) && MeantEntry(e) == node
    decreases node, 3, 0
  {
    hide IsBlockKey, KeyOk, Writable, EntriesOf, ElementsOf, Holds, SafeElement, ProperElement, MeantEntries;
    KeyIsKey(k);
    match node
    case Scalar(text) =>
      QuoteIsWritable(text, "");
    case Map(m) =>
      EntriesMeanTree(node, m.Keys, map[]);
      SomeEntries(node);
      HoldsAll(node, MeantEntries(EntriesOf(node, m.Keys), map[]));
    case List(items) =>
      ElementsMeanTree(items);
  }

  lemma SomeEntries(node: Node)
    requires node.Map? && node.entries != map[]
    ensures EntriesOf(node, node.entries.Keys) != []
  {
  }

  lemma {:induction false} EntriesMeanTree(node: Node, keys: set<string>, before: map<string, Node>)
    requires node.Map? && keys <= node.entries.Keys
    requires forall k :: k in keys ==> KeyOk(k) && TreeOk(node.entries[k])
    ensures forall e :: e in EntriesOf(node, keys) ==> SafeEntry(e) && ProperEntry(e)
    ensures Holds(node, keys, before, MeantEntries(EntriesOf(node, keys), before))
    decreases node, 2, |keys|
  {
    hide SafeEntry, ProperEntry, KeyOk, TreeOk, EntryOf, MeantEntry, Holds;
    if keys == {} {
      HoldsNone(node, before);
    } else {
      var k := First(keys);
      EntryMeansTree(k, node.entries[k]);
      EntriesMeanTree(node, keys - {k}, before[k := node.entries[k]]);
      var entries := EntriesOf(node, keys);
      assert entries[0] == EntryOf(k, node.entries[k]) && entries[1..] == EntriesOf(node, keys - {k});
      HoldsOneMore(node, keys, k, before, MeantEntries(entries, before));
    }
  }

  /** Every such tree, written canonically, parses back to itself. */
  lemma EveryTreeRoundTrips(node: Node)
    requires TreeOk(node) && node.Map?
    ensures Parse(Source(EntriesLines(EntriesOf(node, node.entries.Keys), 0))) == Ok(node)
  {
    hide Parse, Source, EntriesLines;
    EntriesMeanTree(node, node.entries.Keys, map[]);
    HoldsAll(node, MeantEntries(EntriesOf(node, node.entries.Keys), map[]));
    RoundTrip(EntriesOf(node, node.entries.Keys));
  }
}
