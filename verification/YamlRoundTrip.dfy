// Which block documents the parser reads back as what they mean.
module YamlRoundTrip {
  import opened Wrappers
  import Text
  import opened YamlModel
  import opened YamlInline
  import opened YamlBlocks
  import opened YamlText

  // ---- meaning ----

  function Meant(b: Block): Node
    decreases b, 2
  {
    match b
    case BMap(entries) => if entries == [] then Unknown else Map(MeantEntries(entries, map[]))
    case BList(elements) => if elements == [] then Unknown else List(MeantElements(elements))
  }

  function MeantEntry(e: Entry): Node
    decreases e, 0
  {
    match e
    case Leaf(_, value) => Value(value)
    case Nested(_, block) => Meant(block)
  }

  function MeantEntries(entries: seq<Entry>, before: map<string, Node>): map<string, Node>
    decreases entries, 1
  {
    if entries == [] then before
    else MeantEntries(entries[1..], before[entries[0].key := MeantEntry(entries[0])])
  }

  function MeantElement(x: Element): Node
    decreases x, 0
  {
    match x
    case Single(value) => Value(value)
    case Compound(first, rest) => Map(MeantEntries(rest, map[first.key := MeantEntry(first)]))
  }

  function MeantElements(elements: seq<Element>): (r: seq<Node>)
    ensures |r| == |elements| && forall i :: 0 <= i < |r| ==> r[i] == MeantElement(elements[i])
    decreases elements, 1
  {
    if elements == [] then [] else [MeantElement(elements[0])] + MeantElements(elements[1..])
  }

  // ---- distinct keys ----

  function KeysOf(entries: seq<Entry>): set<string> {
    if entries == [] then {} else {entries[0].key} + KeysOf(entries[1..])
  }

  predicate DistinctEntry(e: Entry)
    decreases e, 0
  {
    e.Nested? ==> DistinctBlock(e.block)
  }

  predicate DistinctEntries(entries: seq<Entry>)
    decreases entries, 1
  {
    entries == [] || (DistinctEntry(entries[0]) && entries[0].key !in KeysOf(entries[1..]) && DistinctEntries(entries[1..]))
  }

  predicate DistinctBlock(b: Block)
    decreases b, 2
  {
    match b
    case BMap(entries) => DistinctEntries(entries)
    case BList(elements) => forall x :: x in elements ==> DistinctElement(x)
  }

  predicate DistinctElement(x: Element)
    decreases x, 1
  {
    match x
    case Single(_) => true
    case Compound(first, rest) => DistinctEntry(first) && first.key !in KeysOf(rest) && DistinctEntries(rest)
  }

  // ---- proper documents ----

  /** No list element starts with an entry that has something under it. */
  predicate ProperBlock(b: Block)
    decreases b, 2
  {
    match b
    case BMap(entries) => forall e :: e in entries ==> ProperEntry(e)
    case BList(elements) => forall x :: x in elements ==> ProperElement(x)
  }

  predicate ProperEntry(e: Entry)
    decreases e, 0
  {
    e.Nested? ==> ProperBlock(e.block)
  }

  predicate ProperElement(x: Element)
    decreases x, 1
  {
    match x
    case Single(_) => true
    case Compound(first, rest) =>
      (first.Nested? ==> IsEmpty(first.block)) && forall e :: e in rest ==> ProperEntry(e)
  }

  predicate IsEmpty(b: Block) {
    b == BMap([]) || b == BList([])
  }

  // ---- proper documents are read as meant ----

  function ReadValue(e: Entry): Option<Node> {
    match e
    case Leaf(_, value) => Some(Value(value))
    case Nested(_, block) => ReadBlock(block, Unknown)
  }

  function ReadItem(x: Element): Option<Node> {
    match x
    case Single(value) => Some(Value(value))
    case Compound(_, _) => ReadCompound(x)
  }

  lemma {:induction false} ProperEntryReads(e: Entry)
    requires ProperEntry(e)
    ensures ReadValue(e) == Some(MeantEntry(e))
    decreases e, 0
  {
    if e.Nested? {
      ProperBlockReads(e.block);
    }
  }

  lemma {:induction false} ProperEntriesRead(entries: seq<Entry>, before: map<string, Node>)
    requires forall e :: e in entries ==> ProperEntry(e)
    ensures ReadEntries(entries, Map(before)) == Some(Map(MeantEntries(entries, before)))
    decreases entries, 1
  {
    if entries != [] {
      ProperEntryReads(entries[0]);
      ProperEntriesRead(entries[1..], before[entries[0].key := MeantEntry(entries[0])]);
    }
  }

  lemma {:induction false} ProperItemReads(x: Element)
    requires ProperElement(x)
    ensures ReadItem(x) == Some(MeantElement(x))
    decreases x, 1
  {
    if x.Compound? {
      assert ReadBelow(x.first, FirstOnly(x.first)) == Some(Map(map[x.first.key := MeantEntry(x.first)]));
      ProperEntriesRead(x.rest, map[x.first.key := MeantEntry(x.first)]);
    }
  }

  lemma {:induction false} ProperElementsRead(elements: seq<Element>, before: seq<Node>)
    requires forall x :: x in elements ==> ProperElement(x)
    ensures ReadElements(elements, List(before)) == Some(List(before + MeantElements(elements)))
    decreases elements, 2
  {
    if elements == [] {
      assert before + [] == before;
    } else {
      ProperItemReads(elements[0]);
      ProperElementsRead(elements[1..], before + [MeantElement(elements[0])]);
      assert before + [MeantElement(elements[0])] + MeantElements(elements[1..]) == before + MeantElements(elements);
    }
  }

  // An empty node reads its first entry or element as an open one would.
  lemma FromUnknown(b: Block)
    ensures b.BMap? && b.entries != [] ==> ReadBlock(b, Unknown) == ReadEntries(b.entries, Map(map[]))
    ensures b.BList? && b.elements != [] ==> ReadBlock(b, Unknown) == ReadElements(b.elements, List([]))
  {
    match b
    case BMap(entries) =>
      assert entries != [] ==> ReadEntry(entries[0], Unknown) == ReadEntry(entries[0], Map(map[]));
    case BList(elements) =>
      assert elements != [] ==> ReadElement(elements[0], Unknown) == ReadElement(elements[0], List([]));
  }

  lemma {:induction false} ProperBlockReads(b: Block)
    requires ProperBlock(b)
    ensures ReadBlock(b, Unknown) == Some(Meant(b))
    decreases b, 3
  {
    FromUnknown(b);
    match b
    case BMap(entries) =>
      ProperEntriesRead(entries, map[]);
    case BList(elements) =>
      ProperElementsRead(elements, []);
      assert [] + MeantElements(elements) == MeantElements(elements);
  }

  // ---- entries one by one ----

  lemma {:induction false} EntryWith(entries: seq<Entry>, k: string) returns (e: Entry)
    requires k in KeysOf(entries)
    ensures e in entries && e.key == k
  {
    if entries[0].key == k {
      e := entries[0];
    } else {
      e := EntryWith(entries[1..], k);
    }
  }

  lemma {:induction false} InKeys(entries: seq<Entry>, e: Entry)
    requires e in entries
    ensures e.key in KeysOf(entries)
    ensures DistinctEntries(entries) ==> DistinctEntry(e)
  {
    if e != entries[0] {
      InKeys(entries[1..], e);
    }
  }

  /** What is read holds each entry's own reading, and the rest of what it started
      from. */
  lemma {:induction false} ReadHolds(entries: seq<Entry>, before: map<string, Node>)
    requires DistinctEntries(entries) && ReadEntries(entries, Map(before)).Some?
    ensures var r := ReadEntries(entries, Map(before)).value;
            && r.Map? && r.entries.Keys == before.Keys + KeysOf(entries)
            && (forall k :: k in before && k !in KeysOf(entries) ==> r.entries[k] == before[k])
            && (forall e :: e in entries ==> e.key in r.entries && ReadValue(e) == Some(r.entries[e.key]))
    decreases entries
  {
    if entries != [] {
      var e0, rest := entries[0], entries[1..];
      ReadHolds(rest, before[e0.key := ReadValue(e0).value]);
    }
  }

  lemma {:induction false} MeantHolds(entries: seq<Entry>, before: map<string, Node>)
    requires DistinctEntries(entries)
    ensures var r := MeantEntries(entries, before);
            && r.Keys == before.Keys + KeysOf(entries)
            && (forall k :: k in before && k !in KeysOf(entries) ==> r[k] == before[k])
            && (forall e :: e in entries ==> e.key in r && r[e.key] == MeantEntry(e))
    decreases entries
  {
    if entries != [] {
      var e0, rest := entries[0], entries[1..];
      MeantHolds(rest, before[e0.key := MeantEntry(e0)]);
    }
  }

  lemma {:induction false} ReadItemsHold(elements: seq<Element>, before: seq<Node>)
    requires ReadElements(elements, List(before)).Some?
    ensures var r := ReadElements(elements, List(before)).value;
            && r.List? && |r.items| == |before| + |elements| && r.items[..|before|] == before
            && (forall i :: 0 <= i < |elements| ==> ReadItem(elements[i]) == Some(r.items[|before| + i]))
    decreases elements
  {
    if elements != [] {
      var x, rest := elements[0], elements[1..];
      var next := before + [ReadItem(x).value];
      assert ReadElement(x, List(before)) == Some(List(next));
      ReadItemsHold(rest, next);
      var r := ReadElements(elements, List(before)).value;
      assert r.items[|before|] == r.items[..|next|][|before|] == next[|before|];
      assert r.items[..|before|] == r.items[..|next|][..|before|] == before;
      forall i | 0 <= i < |elements|
        ensures ReadItem(elements[i]) == Some(r.items[|before| + i])
      {
        if i > 0 {
          assert elements[i] == rest[i - 1] && r.items[|next| + (i - 1)] == r.items[|before| + i];
        }
      }
    }
  }

  // ---- height ----

  /** A path of `h` steps leads down from the node. */
  ghost predicate Tall(node: Node, h: nat)
    decreases h
  {
    h == 0 || match node {
      case Map(m) => exists k :: k in m && Tall(m[k], h - 1)
      case List(items) => exists i :: 0 <= i < |items| && Tall(items[i], h - 1)
      case _ => false
    }
  }

  lemma {:induction false} TallAtLess(node: Node, h: nat)
    requires Tall(node, h + 1)
    ensures Tall(node, h)
    decreases h
  {
    if h > 0 {
      match node
      case Map(m) =>
        var k :| k in m && Tall(m[k], h);
        TallAtLess(m[k], h - 1);
      case List(items) =>
        var i :| 0 <= i < |items| && Tall(items[i], h);
        TallAtLess(items[i], h - 1);
    }
  }

  /** Trees are finite. */
  lemma {:induction false} IsBounded(node: Node) returns (bound: nat)
    ensures forall h :: h >= bound ==> !Tall(node, h)
    decreases node
  {
    bound := 1;
    match node
    case Map(m) =>
      var keys := m.Keys;
      while keys != {}
        invariant keys <= m.Keys && bound >= 1
        invariant forall k, h :: k in m && k !in keys && h >= bound - 1 ==> !Tall(m[k], h)
        decreases keys
      {
        var k :| k in keys;
        var b := IsBounded(m[k]);
        bound := if b + 1 > bound then b + 1 else bound;
        keys := keys - {k};
      }
    case List(items) =>
      for i := 0 to |items|
        invariant bound >= 1
        invariant forall j, h :: 0 <= j < i && h >= bound - 1 ==> !Tall(items[j], h)
      {
        var b := IsBounded(items[i]);
        bound := if b + 1 > bound then b + 1 else bound;
      }
    case _ =>
  }

  // ---- a reading is no taller than the meaning ----

  lemma {:induction false} EntryNoTaller(e: Entry, h: nat)
    requires DistinctEntry(e) && ReadValue(e).Some? && Tall(ReadValue(e).value, h)
    ensures Tall(MeantEntry(e), h)
    decreases e, 0
  {
    if e.Nested? {
      BlockNoTaller(e.block, h);
    }
  }

  lemma {:induction false} BlockNoTaller(b: Block, h: nat)
    requires DistinctBlock(b) && ReadBlock(b, Unknown).Some? && Tall(ReadBlock(b, Unknown).value, h)
    ensures Tall(Meant(b), h)
    decreases b, 3
  {
    FromUnknown(b);
    if h > 0 && !IsEmpty(b) {
      hide ReadEntries, ReadElements, MeantEntries, KeysOf;
      match b
      case BMap(entries) =>
        ReadHolds(entries, map[]);
        MeantHolds(entries, map[]);
        var r := ReadEntries(entries, Map(map[])).value.entries;
        var k :| k in r && Tall(r[k], h - 1);
        var e := EntryWith(entries, k);
        InKeys(entries, e);
        EntryNoTaller(e, h - 1);
      case BList(elements) =>
        ReadItemsHold(elements, []);
        var r := ReadElements(elements, List([])).value.items;
        var i :| 0 <= i < |r| && Tall(r[i], h - 1);
        assert ReadItem(elements[i]) == Some(r[0 + i]);
        ItemNoTaller(elements[i], h - 1);
        assert Tall(MeantElements(elements)[i], h - 1);
    }
  }

  // What the first entry of an element, with the block under it, makes of the element.
  lemma BelowHolds(first: Entry)
    requires DistinctEntry(first) && ReadBelow(first, FirstOnly(first)).Some?
    ensures var r := ReadBelow(first, FirstOnly(first)).value;
            && r.Map? && first.key in r.entries
            && (first.Leaf? || IsEmpty(first.block) ==> r == Map(map[first.key := MeantEntry(first)]))
            && (first.Nested? && !IsEmpty(first.block) ==>
                  && first.block.BMap? && r.entries.Keys == {first.key} + KeysOf(first.block.entries)
                  && (first.key !in KeysOf(first.block.entries) ==> r.entries[first.key] == Unknown)
                  && forall e :: e in first.block.entries ==> e.key in r.entries && ReadValue(e) == Some(r.entries[e.key]))
  {
    if first.Nested? {
      var start := map[first.key := Unknown];
      match first.block
      case BMap(entries) =>
        assert DistinctEntries(entries);
        assert ReadBelow(first, FirstOnly(first)) == ReadEntries(entries, Map(start));
        ReadHolds(entries, start);
      case BList(elements) =>
        ListUnderMap(first.block, FirstOnly(first));
        assert ReadBelow(first, FirstOnly(first)) == ReadBlock(first.block, Map(start));
    }
  }

  lemma ListUnderMap(b: Block, node: Node)
    requires node.Map?
    ensures b.BList? && b.elements != [] ==> ReadBlock(b, node).None?
  {
    if b.BList? && b.elements != [] {
      assert ReadElement(b.elements[0], node).None?;
    }
  }

  lemma {:induction false} ItemNoTaller(x: Element, h: nat)
    requires DistinctElement(x) && ReadItem(x).Some? && Tall(ReadItem(x).value, h)
    ensures Tall(MeantElement(x), h)
    decreases x, 1
  {
    if x.Compound? && h > 0 {
      BelowHolds(x.first);
      var below := ReadBelow(x.first, FirstOnly(x.first)).value.entries;
      ReadHolds(x.rest, below);
      MeantHolds(x.rest, map[x.first.key := MeantEntry(x.first)]);
      var r, t := ReadItem(x).value.entries, MeantElement(x).entries;
      var k :| k in r && Tall(r[k], h - 1);
      if k in KeysOf(x.rest) {
        var e := EntryWith(x.rest, k);
        InKeys(x.rest, e);
        EntryNoTaller(e, h - 1);
        assert Tall(t[k], h - 1);
      } else {
        FirstNoTaller(x.first, k, h - 1);
        assert Tall(t[x.first.key], h - 1);
      }
    }
  }

  lemma {:induction false} FirstNoTaller(first: Entry, k: string, h: nat)
    requires DistinctEntry(first) && ReadBelow(first, FirstOnly(first)).Some?
    requires ReadBelow(first, FirstOnly(first)).value.Map? && k in ReadBelow(first, FirstOnly(first)).value.entries
    requires Tall(ReadBelow(first, FirstOnly(first)).value.entries[k], h)
    ensures Tall(MeantEntry(first), h)
    decreases first, 1
  {
    BelowHolds(first);
    if first.Nested? && !IsEmpty(first.block) {
      var entries := first.block.entries;
      if k in KeysOf(entries) {
        var e := EntryWith(entries, k);
        InKeys(entries, e);
        EntryNoTaller(e, h);
        MeantHolds(entries, map[]);
        assert Tall(Meant(first.block).entries[k], h);
        assert Tall(Meant(first.block), h + 1);
        TallAtLess(Meant(first.block), h);
      }
    }
  }

  // ---- improper documents are not ----

  // A block's meaning is not the reading of one of its own entries.
  lemma NotItsOwnEntry(entries: seq<Entry>, e: Entry)
    requires DistinctEntries(entries) && e in entries
    ensures ReadValue(e) != Some(Map(MeantEntries(entries, map[])))
  {
    var m := MeantEntries(entries, map[]);
    MeantHolds(entries, map[]);
    InKeys(entries, e);
    if ReadValue(e) == Some(Map(m)) {
      var bound := IsBounded(MeantEntry(e));
      for h := 0 to bound
        invariant Tall(MeantEntry(e), h)
      {
        assert Tall(m[e.key], h);
        EntryNoTaller(e, h + 1);
      }
    }
  }

  lemma {:induction false} EntryMisread(e: Entry)
    requires DistinctEntry(e) && !ProperEntry(e)
    ensures ReadValue(e) != Some(MeantEntry(e))
    decreases e, 0
  {
    BlockMisread(e.block);
  }

  lemma {:induction false} EntriesMisread(entries: seq<Entry>, before: map<string, Node>, before': map<string, Node>)
    requires DistinctEntries(entries) && exists e :: e in entries && !ProperEntry(e)
    ensures ReadEntries(entries, Map(before)) != Some(Map(MeantEntries(entries, before')))
    decreases entries, 1
  {
    var e :| e in entries && !ProperEntry(e);
    InKeys(entries, e);
    EntryMisread(e);
    MeantHolds(entries, before');
    if ReadEntries(entries, Map(before)).Some? {
      ReadHolds(entries, before);
    }
  }

  lemma {:induction false} ItemMisread(x: Element)
    requires DistinctElement(x) && !ProperElement(x)
    ensures ReadItem(x) != Some(MeantElement(x))
    decreases x, 2
  {
    var below := ReadBelow(x.first, FirstOnly(x.first));
    if below.Some? && ReadItem(x).Some? {
      BelowHolds(x.first);
      var start := map[x.first.key := MeantEntry(x.first)];
      if exists e :: e in x.rest && !ProperEntry(e) {
        EntriesMisread(x.rest, below.value.entries, start);
      } else {
        ReadHolds(x.rest, below.value.entries);
        MeantHolds(x.rest, start);
        FirstMisread(x.first);
      }
    }
  }

  lemma FirstMisread(first: Entry)
    requires DistinctEntry(first) && first.Nested? && !IsEmpty(first.block)
    requires ReadBelow(first, FirstOnly(first)).Some?
    ensures var r := ReadBelow(first, FirstOnly(first)).value;
            r.Map? && first.key in r.entries && r.entries[first.key] != MeantEntry(first)
  {
    BelowHolds(first);
    var entries := first.block.entries;
    assert DistinctBlock(first.block) && entries != [];
    if first.key in KeysOf(entries) {
      var e := EntryWith(entries, first.key);
      NotItsOwnEntry(entries, e);
    }
  }

  lemma {:induction false} BlockMisread(b: Block)
    requires DistinctBlock(b) && !ProperBlock(b)
    ensures ReadBlock(b, Unknown) != Some(Meant(b))
    decreases b, 3
  {
    FromUnknown(b);
    match b
    case BMap(entries) =>
      EntriesMisread(entries, map[], map[]);
    case BList(elements) =>
      var x :| x in elements && !ProperElement(x);
      var i :| 0 <= i < |elements| && elements[i] == x;
      ItemMisread(x);
      if ReadBlock(b, Unknown).Some? {
        ReadItemsHold(elements, []);
        assert ReadItem(elements[i]) == Some(ReadBlock(b, Unknown).value.items[0 + i]);
      }
  }

  // ---- round trip ----

  /** A document of maps with distinct keys is parsed back to what it means exactly
      when no list element starts with an entry that has something under it. */
  lemma RoundTripExactlyWhen(entries: seq<Entry>)
    requires (forall e :: e in entries ==> SafeEntry(e)) && DistinctEntries(entries)
    ensures Parse(Source(EntriesLines(entries, 0))) == Ok(Map(MeantEntries(entries, map[])))
       <==> forall e :: e in entries ==> ProperEntry(e)
  {
    ParseReads(entries);
    if forall e :: e in entries ==> ProperEntry(e) {
      ProperEntriesRead(entries, map[]);
    } else {
      EntriesMisread(entries, map[], map[]);
    }
  }

  /** For proper documents repeated keys do no harm: the last one counts. */
  lemma RoundTrip(entries: seq<Entry>)
    requires forall e :: e in entries ==> SafeEntry(e) && ProperEntry(e)
    ensures Parse(Source(EntriesLines(entries, 0))) == Ok(Map(MeantEntries(entries, map[])))
  {
    ParseReads(entries);
    ProperEntriesRead(entries, map[]);
  }

  /** For example, `c` meant for the map under `b` lands beside it. */
  lemma NestingUnderADashIsLost()
    ensures var c := Leaf("c", Plain("1"));
            var doc := [Nested("a", BList([Compound(Nested("b", BMap([c])), [])]))];
            && EntriesLines(doc, 0) == [Line(0, "a:"), Line(2, "- b:"), Line(6, "c: 1")]
            && Parse(Source(EntriesLines(doc, 0))) ==
               Ok(Map(map["a" := List([Map(map["b" := Unknown, "c" := Scalar("1")])])]))
  {
    var c := Leaf("c", Plain("1"));
    var b := Nested("b", BMap([c]));
    var a := Nested("a", BList([Compound(b, [])]));
    LetterIsPlain("a", ":");
    LetterIsPlain("b", ":");
    LetterIsPlain("c", ":");
    LetterIsPlain("1", "");
    assert SafeEntry(c);
    assert SafeEntry(b);
    assert SafeElement(Compound(b, []));
    assert SafeEntry(a);
    ParseReads([a]);
    ReadExample(c, b);
    LinesExample(c, b, a);
  }

  lemma LetterIsPlain(t: string, ban: string)
    requires |t| == 1 && IsInert(t[0]) && t[0] !in ban && !Text.IsSpace(t[0]) && t[0] != '#'
    ensures IsPlain(t, ban)
  {
    assert t[1..] == [];
  }

  lemma ReadExample(c: Entry, b: Entry)
    requires c == Leaf("c", Plain("1")) && b == Nested("b", BMap([c]))
    ensures ReadEntries([Nested("a", BList([Compound(b, [])]))], Map(map[])) ==
            Some(Map(map["a" := List([Map(map["b" := Unknown, "c" := Scalar("1")])])]))
  {
    var item := Map(map["b" := Unknown, "c" := Scalar("1")]);
    assert ReadEntry(c, FirstOnly(b)) == Some(item);
    assert ReadEntries([c], FirstOnly(b)) == Some(item);
    assert ReadEntries([], item) == Some(item);
    assert ReadBelow(b, FirstOnly(b)) == Some(item);
    assert Attach(Unknown, Item, item) == List([item]);
    assert ReadElement(Compound(b, []), Unknown) == Some(List([item]));
    assert ReadElements([Compound(b, [])], Unknown) == Some(List([item]));
    assert ReadBlock(BList([Compound(b, [])]), Unknown) == Some(List([item]));
  }

  lemma LinesExample(c: Entry, b: Entry, a: Entry)
    requires c == Leaf("c", Plain("1")) && b == Nested("b", BMap([c])) && a == Nested("a", BList([Compound(b, [])]))
    ensures EntriesLines([a], 0) == [Line(0, "a:"), Line(2, "- b:"), Line(6, "c: 1")]
  {
    assert Head(c) == "c: 1" && Head(b) == "b:" && Head(a) == "a:";
    assert EntryLines(c, 6) == [Line(6, "c: 1")];
    assert EntriesLines([c], 6) == [Line(6, "c: 1")];
    assert Below(b, 4) == [Line(6, "c: 1")];
    assert "- " + Head(b) == "- b:";
    assert ElementLines(Compound(b, []), 2) == [Line(2, "- b:"), Line(6, "c: 1")];
    assert ElementsLines([Compound(b, [])], 2) == [Line(2, "- b:"), Line(6, "c: 1")];
    assert Below(a, 0) == ElementsLines([Compound(b, [])], 2);
    assert EntryLines(a, 0) == [Line(0, "a:"), Line(2, "- b:"), Line(6, "c: 1")];
  }
}
