/** The rating table: entries saved into an ordered tree of groups, and looked up again. */
module RatingTree {
  // ---------------------------------------------------------------- the document

  datatype Value = Text(text: string) | Number(number: int)

  datatype Attribute = Attribute(name: string, value: Value)

  datatype Xml = Element(value: string, attributes: seq<Attribute>, children: seq<Xml>)

  /** Where an element stands below another: the child taken at each level. */
  datatype Place = Nowhere | At(path: seq<nat>)

  const ROOT := "rating-system-definitions"
  const GROUP := "rating-system-definition"
  const DEFINITION := "rating-definition"

  /** The search keeps the result of the last child only. */
  function Find(e: Xml, name: string): Place
    decreases e, 0
  {
    if e.value == name then At([])
    else if e.children == [] then Nowhere
    else
      var last := |e.children| - 1;
      match Find(e.children[last], name)
      case Nowhere => Nowhere
      case At(path) => At([last] + path)
  }

  method GetElementPointerByName(root: Xml, name: string) returns (place: Place)
    ensures place == Find(root, name)
    decreases root
  {
    if name == root.value {
      return At([]);
    }
    place := Nowhere;
    for i := 0 to |root.children|
      invariant i == 0 ==> place == Nowhere
      invariant i > 0 ==> place == match Find(root.children[i - 1], name)
                                   case Nowhere => Nowhere
                                   case At(path) => At([i - 1] + path)
    {
      var below := GetElementPointerByName(root.children[i], name);
      place := match below case Nowhere => Nowhere case At(path) => At([i] + path);
    }
  }

  predicate Reaches(e: Xml, path: seq<nat>)
    decreases |path|
  {
    path == [] || (path[0] < |e.children| && Reaches(e.children[path[0]], path[1..]))
  }

  function Node(e: Xml, path: seq<nat>): Xml
    requires Reaches(e, path)
    decreases |path|
  {
    if path == [] then e else Node(e.children[path[0]], path[1..])
  }

  /** The tree with a child linked behind the children of the element at a place. */
  function LinkEndChild(e: Xml, path: seq<nat>, child: Xml): Xml
    requires Reaches(e, path)
    decreases |path|
  {
    if path == [] then e.(children := e.children + [child])
    else e.(children := e.children[path[0] := LinkEndChild(e.children[path[0]], path[1..], child)])
  }

  // ---------------------------------------------------------------- entries and groups

  datatype RrtInfo = RrtInfo(rating_region: int, dimensions_id: int, rating_value_id: int,
                             rating_region_name: string, dimensions_name: string,
                             abbrev_rating_value_text: string, rating_value_text: string)

  datatype Definition = Definition(title: string, description: string, rating_id: int)

  datatype Group = Group(name: string, rating: int, country: string, dimension_id: int, definitions: seq<Definition>)

  function DefinitionOf(e: RrtInfo): Definition {
    Definition(e.abbrev_rating_value_text, e.rating_value_text, e.rating_value_id)
  }

  /** A group takes an entry if it has its dimension name, region name and dimension id; the region number
      is not compared. */
  predicate Takes(g: Group, e: RrtInfo) {
    g.name == e.dimensions_name && g.country == e.rating_region_name && g.dimension_id == e.dimensions_id
  }

  function Add(gs: seq<Group>, e: RrtInfo): (r: seq<Group>)
    ensures r != []
  {
    var n := |gs| - 1;
    if gs != [] && Takes(gs[n], e)
    then gs[n := gs[n].(definitions := gs[n].definitions + [DefinitionOf(e)])]
    else gs + [Group(e.dimensions_name, e.rating_region, e.rating_region_name, e.dimensions_id, [DefinitionOf(e)])]
  }

  function Build(es: seq<RrtInfo>): seq<Group> {
    if es == [] then [] else Add(Build(es[..|es| - 1]), es[|es| - 1])
  }

  function DefinitionXml(d: Definition): Xml {
    Element(DEFINITION, [Attribute("android:title", Text(d.title)),
                         Attribute("android:description", Text(d.description)),
                         Attribute("android:rating_id", Number(d.rating_id))], [])
  }

  function GroupXml(g: Group): Xml {
    Element(GROUP, [Attribute("android:name", Text(g.name)), Attribute("android:rating", Number(g.rating)),
                    Attribute("android:country", Text(g.country)),
                    Attribute("android:dimension_id", Number(g.dimension_id))],
            seq(|g.definitions|, i requires 0 <= i < |g.definitions| => DefinitionXml(g.definitions[i])))
  }

  function ToXml(gs: seq<Group>): Xml {
    Element(ROOT, [Attribute("xmlns:android", Text("http://schemas.android.com/apk/res/android")),
                   Attribute("android:versionCode", Text("2"))],
            seq(|gs|, i requires 0 <= i < |gs| => GroupXml(gs[i])))
  }

  /** In a document of groups the search ends at the last group. */
  lemma FindsLastGroup(gs: seq<Group>)
    ensures Find(ToXml(gs), GROUP) == if gs == [] then Nowhere else At([|gs| - 1])
  {
    var x := ToXml(gs);
    assert ROOT[|ROOT| - 1] == 's' && |GROUP| != |ROOT|;
    if gs != [] {
      assert Find(x.children[|gs| - 1], GROUP) == At([]);
      assert [|gs| - 1 as nat] + [] == [|gs| - 1];
    }
  }

  lemma LinkGroup(gs: seq<Group>, g: Group)
    ensures Reaches(ToXml(gs), []) && LinkEndChild(ToXml(gs), [], GroupXml(g)) == ToXml(gs + [g])
  {
    hide GroupXml;
    assert ToXml(gs).children + [GroupXml(g)] == ToXml(gs + [g]).children;
  }

  lemma LinkDefinition(gs: seq<Group>, d: Definition)
    requires gs != []
    ensures var n := |gs| - 1;
            && Reaches(ToXml(gs), [n]) && Node(ToXml(gs), [n]) == GroupXml(gs[n])
            && LinkEndChild(ToXml(gs), [n], DefinitionXml(d))
               == ToXml(gs[n := gs[n].(definitions := gs[n].definitions + [d])])
  {
    hide DefinitionXml;
    var n: nat := |gs| - 1;
    var g, g' := gs[n], gs[n].(definitions := gs[n].definitions + [d]);
    assert GroupXml(g).children + [DefinitionXml(d)] == GroupXml(g').children;
    var path := [n];
    assert path[1..] == [];
    assert ToXml(gs).children[n := GroupXml(g')] == ToXml(gs[n := g']).children;
    assert LinkEndChild(ToXml(gs).children[n], path[1..], DefinitionXml(d)) == GroupXml(g');
  }

  // ---------------------------------------------------------------- saving

  datatype Stored = Absent | File(root: Xml)

  class TiXmlDocument {
    var root: Xml

    constructor ()
      ensures root == ToXml([])
    {
      root := Element(ROOT, [Attribute("xmlns:android", Text("http://schemas.android.com/apk/res/android")),
                             Attribute("android:versionCode", Text("2"))], []);
    }
  }

  /** Where the document is written: the k-th write succeeds if saves(k). */
  class Disk {
    const saves: nat -> bool
    var file: Stored
    var writes: nat

    constructor (file: Stored, saves: nat -> bool)
      ensures this.file == file && this.saves == saves && writes == 0
    {
      this.file, this.saves, writes := file, saves, 0;
    }

    method SaveFile(root: Xml) returns (ok: bool)
      modifies this
      ensures ok == saves(old(writes)) && writes == old(writes) + 1
      ensures file == if ok then File(root) else old(file)
    {
      ok := saves(writes);
      writes := writes + 1;
      if ok {
        file := File(root);
      }
    }
  }

  /** A new group element with its first definition. */
  function NewGroup(info: RrtInfo): Xml {
    GroupXml(Group(info.dimensions_name, info.rating_region, info.rating_region_name, info.dimensions_id,
                   [DefinitionOf(info)]))
  }

  /** Adds one entry to the document and writes the document out. */
  method SaveDataToXml(doc: TiXmlDocument, disk: Disk, info: RrtInfo, ghost gs: seq<Group>) returns (ok: bool)
    requires doc.root == ToXml(gs)
    modifies doc, disk
    ensures doc.root == ToXml(Add(gs, info))
    ensures ok == disk.saves(old(disk.writes)) && disk.writes == old(disk.writes) + 1
    ensures disk.file == if ok then File(doc.root) else old(disk.file)
  {
    hide GroupXml, Find, LinkEndChild, Reaches, Node;
    LinkGroup(gs, Group(info.dimensions_name, info.rating_region, info.rating_region_name, info.dimensions_id,
                        [DefinitionOf(info)]));
    if doc.root.children == [] {
      doc.root := LinkEndChild(doc.root, [], NewGroup(info));
    } else {
      var place := GetElementPointerByName(doc.root, GROUP);
      FindsLastGroup(gs);
      LinkDefinition(gs, DefinitionOf(info));
      var attributes := Node(doc.root, place.path).attributes;
      GroupAttributes(gs[|gs| - 1]);
      if attributes[0].value.text == info.dimensions_name &&
         attributes[2].value.text == info.rating_region_name &&
         attributes[|attributes| - 1].value.number == info.dimensions_id {
        doc.root := LinkEndChild(doc.root, place.path, DefinitionXml(DefinitionOf(info)));
      } else {
        doc.root := LinkEndChild(doc.root, [], NewGroup(info));
      }
    }
    ok := disk.SaveFile(doc.root);
  }

  lemma GroupAttributes(g: Group)
    ensures GroupXml(g).attributes == [Attribute("android:name", Text(g.name)),
                                       Attribute("android:rating", Number(g.rating)),
                                       Attribute("android:country", Text(g.country)),
                                       Attribute("android:dimension_id", Number(g.dimension_id))]
  {}

  // ---------------------------------------------------------------- the received table

  /** A multiple string: its strings, possibly none. */
  type MultiString = seq<string>

  datatype RatingValue = RatingValue(abbrev_rating_value_text: MultiString, rating_value_text: MultiString)

  datatype Dimension = Dimension(dimensions_name: MultiString, values_defined: nat, rating_value: seq<RatingValue>)

  datatype Section = Section(rating_region: int, rating_region_name: MultiString, dimensions_info: seq<Dimension>)

  predicate ValidDimensions(ds: seq<Dimension>) {
    forall i :: 0 <= i < |ds| ==> ds[i].values_defined <= |ds[i].rating_value|
  }

  predicate ValidSections(ss: seq<Section>) {
    forall i :: 0 <= i < |ss| ==> ValidDimensions(ss[i].dimensions_info)
  }

  /** Only the first string counts, and an empty one leaves the text that was there. */
  function Parsed(m: MultiString, before: string): string {
    if m == [] then before else m[0]
  }

  method MultipleStringParser(m: MultiString, before: string) returns (ret: string)
    ensures ret == Parsed(m, before)
  {
    ret := before;
    for i := 0 to |m|
      invariant ret == if i == 0 then before else m[0]
    {
      ret := m[0];
    }
  }

  /** The record after values 1 to n - 1 of a dimension were read into it. */
  function AfterValues(info: RrtInfo, d: Dimension, n: nat): RrtInfo
    requires n <= 1 || n <= |d.rating_value|
  {
    if n <= 1 then info
    else
      var before := AfterValues(info, d, n - 1);
      var v := d.rating_value[n - 1];
      before.(rating_value_id := n - 1,
              abbrev_rating_value_text := Parsed(v.abbrev_rating_value_text, before.abbrev_rating_value_text),
              rating_value_text := Parsed(v.rating_value_text, before.rating_value_text))
  }

  /** The entries saved for values 1 to n - 1; value 0 is never saved. */
  function ValueStream(info: RrtInfo, d: Dimension, n: nat): seq<RrtInfo>
    requires n <= 1 || n <= |d.rating_value|
  {
    if n <= 1 then [] else ValueStream(info, d, n - 1) + [AfterValues(info, d, n)]
  }

  function DimensionStart(info: RrtInfo, d: Dimension): RrtInfo {
    info.(dimensions_name := Parsed(d.dimensions_name, info.dimensions_name))
  }

  function AfterDimensions(info: RrtInfo, ds: seq<Dimension>): RrtInfo
    requires ValidDimensions(ds)
  {
    if ds == [] then info
    else
      var n := |ds| - 1;
      var after := AfterValues(DimensionStart(AfterDimensions(info, ds[..n]), ds[n]), ds[n], ds[n].values_defined);
      after.(dimensions_id := after.dimensions_id + 1)
  }

  function DimensionStream(info: RrtInfo, ds: seq<Dimension>): seq<RrtInfo>
    requires ValidDimensions(ds)
  {
    if ds == [] then []
    else
      var n := |ds| - 1;
      DimensionStream(info, ds[..n]) +
      ValueStream(DimensionStart(AfterDimensions(info, ds[..n]), ds[n]), ds[n], ds[n].values_defined)
  }

  function SectionStart(info: RrtInfo, s: Section): RrtInfo {
    info.(rating_region := s.rating_region, dimensions_id := 0,
          rating_region_name := Parsed(s.rating_region_name, info.rating_region_name))
  }

  function AfterSections(ss: seq<Section>): RrtInfo
    requires ValidSections(ss)
  {
    if ss == [] then RrtInfo(0, 0, 0, "", "", "", "")
    else
      var n := |ss| - 1;
      AfterDimensions(SectionStart(AfterSections(ss[..n]), ss[n]), ss[n].dimensions_info)
  }

  /** The entries of a whole table, in the order they are saved. */
  function Stream(ss: seq<Section>): seq<RrtInfo>
    requires ValidSections(ss)
  {
    if ss == [] then []
    else
      var n := |ss| - 1;
      Stream(ss[..n]) + DimensionStream(SectionStart(AfterSections(ss[..n]), ss[n]), ss[n].dimensions_info)
  }

  /** How many of the entries the last write that succeeded covered, the k-th of them being write
      first + k. */
  function Written(n: nat, saves: nat -> bool, first: nat): (k: nat)
    ensures k <= n
    ensures k > 0 ==> saves(first + k - 1)
    ensures forall j: nat :: first + k <= j < first + n ==> !saves(j)
  {
    if n == 0 then 0 else if saves(first + n - 1) then n else Written(n - 1, saves, first)
  }

  /** What the k-th save leaves on disk: the document of the first k entries. */
  function Saved(es: seq<RrtInfo>, k: nat, before: Stored): Stored
    requires k <= |es|
  {
    if k == 0 then before else File(ToXml(Build(es[..k])))
  }

  /** What is on disk after the entries were saved one by one. */
  function FileAfter(es: seq<RrtInfo>, saves: nat -> bool, first: nat, before: Stored): Stored {
    Saved(es, Written(|es|, saves, first), before)
  }

  method SaveValues(doc: TiXmlDocument, disk: Disk, info: RrtInfo, d: Dimension,
                    ghost es: seq<RrtInfo>, ghost first: nat, ghost before: Stored)
    returns (after: RrtInfo, ghost es': seq<RrtInfo>)
    requires d.values_defined <= |d.rating_value|
    requires doc.root == ToXml(Build(es)) && disk.file == FileAfter(es, disk.saves, first, before)
    requires disk.writes == first + |es|
    modifies doc, disk
    ensures after == AfterValues(info, d, d.values_defined)
    ensures es' == es + ValueStream(info, d, d.values_defined)
    ensures doc.root == ToXml(Build(es')) && disk.file == FileAfter(es', disk.saves, first, before)
    ensures disk.writes == first + |es'|
  {
    hide ToXml, Add, Build, FileAfter;
    after, es' := info, es;
    var j := 1;
    while j < d.values_defined
      invariant 1 <= j && (j <= d.values_defined || j == 1)
      invariant after == AfterValues(info, d, j)
      invariant es' == es + ValueStream(info, d, j)
      invariant doc.root == ToXml(Build(es')) && disk.file == FileAfter(es', disk.saves, first, before)
      invariant disk.writes == first + |es'|
    {
      var v := d.rating_value[j];
      var abbrev := MultipleStringParser(v.abbrev_rating_value_text, after.abbrev_rating_value_text);
      var text := MultipleStringParser(v.rating_value_text, after.rating_value_text);
      after := after.(rating_value_id := j, abbrev_rating_value_text := abbrev, rating_value_text := text);
      var _ := SaveDataToXml(doc, disk, after, Build(es'));
      BuildNext(es', after);
      SavedNext(es', after, disk.saves, first, before);
      es' := es' + [after];
      j := j + 1;
    }
  }

  lemma SavedNext(es: seq<RrtInfo>, e: RrtInfo, saves: nat -> bool, first: nat, before: Stored)
    ensures FileAfter(es + [e], saves, first, before) ==
            if saves(first + |es|) then File(ToXml(Build(es + [e]))) else FileAfter(es, saves, first, before)
  {
    hide Build, ToXml, Written, Saved, FileAfter;
    WrittenNext(|es|, saves, first);
    assert |es + [e]| == |es| + 1;
    FileIs(es + [e], saves, first, before, Written(|es| + 1, saves, first));
    FileIs(es, saves, first, before, Written(|es|, saves, first));
    if saves(first + |es|) {
      SavedWhole(es + [e], before);
    } else {
      SavedPrefix(es, [e], Written(|es|, saves, first), before);
    }
  }

  lemma FileIs(es: seq<RrtInfo>, saves: nat -> bool, first: nat, before: Stored, k: nat)
    requires k == Written(|es|, saves, first)
    ensures FileAfter(es, saves, first, before) == Saved(es, k, before)
  {}

  lemma SavedWhole(es: seq<RrtInfo>, before: Stored)
    requires es != []
    ensures Saved(es, |es|, before) == File(ToXml(Build(es)))
  {
    hide Build, ToXml;
    assert es[..|es|] == es;
  }

  lemma SavedPrefix(es: seq<RrtInfo>, more: seq<RrtInfo>, k: nat, before: Stored)
    requires k <= |es|
    ensures Saved(es + more, k, before) == Saved(es, k, before)
  {
    hide Build, ToXml;
    assert (es + more)[..k] == es[..k];
  }

  lemma WrittenNext(n: nat, saves: nat -> bool, first: nat)
    ensures Written(n + 1, saves, first) == if saves(first + n) then n + 1 else Written(n, saves, first)
  {}

  lemma BuildNext(es: seq<RrtInfo>, e: RrtInfo)
    ensures Build(es + [e]) == Add(Build(es), e)
  {
    assert (es + [e])[..|es|] == es;
  }

  method SaveDimensions(doc: TiXmlDocument, disk: Disk, info: RrtInfo, ds: seq<Dimension>,
                        ghost es: seq<RrtInfo>, ghost first: nat, ghost before: Stored)
    returns (after: RrtInfo, ghost es': seq<RrtInfo>)
    requires ValidDimensions(ds)
    requires doc.root == ToXml(Build(es)) && disk.file == FileAfter(es, disk.saves, first, before)
    requires disk.writes == first + |es|
    modifies doc, disk
    ensures after == AfterDimensions(info, ds)
    ensures es' == es + DimensionStream(info, ds)
    ensures doc.root == ToXml(Build(es')) && disk.file == FileAfter(es', disk.saves, first, before)
    ensures disk.writes == first + |es'|
  {
    hide ToXml, Build, FileAfter, AfterValues, ValueStream;
    after, es' := info, es;
    for k := 0 to |ds|
      invariant after == AfterDimensions(info, ds[..k])
      invariant es' == es + DimensionStream(info, ds[..k])
      invariant doc.root == ToXml(Build(es')) && disk.file == FileAfter(es', disk.saves, first, before)
      invariant disk.writes == first + |es'|
    {
      assert ds[..k + 1][..k] == ds[..k];
      var name := MultipleStringParser(ds[k].dimensions_name, after.dimensions_name);
      after, es' := SaveValues(doc, disk, after.(dimensions_name := name), ds[k], es', first, before);
      after := after.(dimensions_id := after.dimensions_id + 1);
    }
    assert ds[..|ds|] == ds;
  }

  /** A received table replaces the file: entry by entry the new document is written out. */
  method RrtDataUpdate(disk: Disk, sections: seq<Section>) returns (doc: TiXmlDocument)
    requires ValidSections(sections)
    modifies disk
    ensures fresh(doc) && doc.root == ToXml(Build(Stream(sections)))
    ensures disk.file == FileAfter(Stream(sections), disk.saves, old(disk.writes), old(disk.file))
    ensures disk.writes == old(disk.writes) + |Stream(sections)|
  {
    hide ToXml, Build, FileAfter, AfterDimensions, DimensionStream;
    doc := new TiXmlDocument();
    ghost var es: seq<RrtInfo>, first, before := [], disk.writes, disk.file;
    var info := RrtInfo(0, 0, 0, "", "", "", "");
    NothingSaved(disk.saves, first, before);
    for k := 0 to |sections|
      invariant info == AfterSections(sections[..k]) && es == Stream(sections[..k])
      invariant doc.root == ToXml(Build(es)) && disk.file == FileAfter(es, disk.saves, first, before)
      invariant disk.writes == first + |es|
    {
      assert sections[..k + 1][..k] == sections[..k];
      var s := sections[k];
      info := info.(rating_region := s.rating_region, dimensions_id := 0);
      var name := MultipleStringParser(s.rating_region_name, info.rating_region_name);
      info := info.(rating_region_name := name);
      info, es := SaveDimensions(doc, disk, info, s.dimensions_info, es, first, before);
    }
    assert sections[..|sections|] == sections;
  }

  lemma NothingSaved(saves: nat -> bool, first: nat, before: Stored)
    ensures Build([]) == [] && FileAfter([], saves, first, before) == before
  {}

  // ---------------------------------------------------------------- looking up

  datatype SelectInfo = SelectInfo(rating_region_name: string, dimensions_name: string, rating_value_text: string)

  const NO_INFO := SelectInfo("", "", "")

  /** The first definition with a value id; |ds| if there is none. */
  function FirstDefinition(ds: seq<Definition>, value_id: int): (i: nat)
    ensures i <= |ds|
  {
    if ds == [] || ds[0].rating_id == value_id then 0 else 1 + FirstDefinition(ds[1..], value_id)
  }

  /** The search through the groups from the k-th on. Names of every matching group are noted on the way,
      so a failing search leaves those of the last one. */
  function Select(gs: seq<Group>, region: int, dimension: int, value: int, k: nat, info: SelectInfo): (int, SelectInfo)
    requires k <= |gs|
    decreases |gs| - k
  {
    if k == |gs| then (-1, info)
    else if gs[k].rating == region && gs[k].dimension_id == dimension then
      var noted := info.(rating_region_name := gs[k].country, dimensions_name := gs[k].name);
      var i := FirstDefinition(gs[k].definitions, value);
      if i < |gs[k].definitions| then (0, noted.(rating_value_text := gs[k].definitions[i].title))
      else Select(gs, region, dimension, value, k + 1, noted)
    else Select(gs, region, dimension, value, k + 1, info)
  }

  /** Reads the table back from the file. */
  method GetRRTRating(file: Stored, region: int, dimension: int, value: int, ghost gs: seq<Group>)
    returns (r: int, ret: SelectInfo)
    requires file.File? ==> file.root == ToXml(gs)
    ensures file.Absent? ==> r == -1
    ensures file.File? ==> (r, ret) == Select(gs, region, dimension, value, 0, NO_INFO)
  {
    r, ret := -1, NO_INFO;
    if file.Absent? {
      return;
    }
    var groups := file.root.children;
    var k := 0;
    while k < |groups|
      invariant 0 <= k <= |groups| && r == -1
      invariant Select(gs, region, dimension, value, 0, NO_INFO) == Select(gs, region, dimension, value, k, ret)
    {
      var a := groups[k].attributes;
      GroupAttributes(gs[k]);
      if a[1].value.number == region && a[|a| - 1].value.number == dimension {
        ret := ret.(rating_region_name := a[2].value.text, dimensions_name := a[0].value.text);
        var i := FindDefinition(groups[k].children, value, gs[k].definitions);
        if i < |groups[k].children| {
          ret := ret.(rating_value_text := groups[k].children[i].attributes[0].value.text);
          r := 0;
          return;
        }
      }
      k := k + 1;
    }
  }

  method FindDefinition(children: seq<Xml>, value: int, ghost ds: seq<Definition>) returns (i: nat)
    requires |children| == |ds| && forall k :: 0 <= k < |ds| ==> children[k] == DefinitionXml(ds[k])
    ensures i == FirstDefinition(ds, value)
  {
    i := 0;
    while i < |children|
      invariant i <= |children| && FirstDefinition(ds, value) == i + FirstDefinition(ds[i..], value)
    {
      if children[i].attributes[|children[i].attributes| - 1].value.number == value {
        return;
      }
      assert ds[i..][1..] == ds[i + 1..];
      i := i + 1;
    }
  }

  // ---------------------------------------------------------------- nothing is lost, and where groups begin

  function Entry(g: Group, d: Definition): RrtInfo {
    RrtInfo(g.rating, g.dimension_id, d.rating_id, g.country, g.name, d.title, d.description)
  }

  function FlatGroup(g: Group): (es: seq<RrtInfo>)
    ensures |es| == |g.definitions|
  {
    seq(|g.definitions|, i requires 0 <= i < |g.definitions| => Entry(g, g.definitions[i]))
  }

  /** The entries of all groups in order, each with its group's region number. */
  function Flatten(gs: seq<Group>): seq<RrtInfo> {
    if gs == [] then [] else Flatten(gs[..|gs| - 1]) + FlatGroup(gs[|gs| - 1])
  }

  predicate SameGroup(a: RrtInfo, b: RrtInfo) {
    a.dimensions_name == b.dimensions_name && a.rating_region_name == b.rating_region_name
    && a.dimensions_id == b.dimensions_id
  }

  /** How many groups the entries need: one more wherever the group changes. */
  function Changes(es: seq<RrtInfo>): nat {
    var n := |es| - 1;
    if es == [] then 0
    else Changes(es[..n]) + if n == 0 || !SameGroup(es[n - 1], es[n]) then 1 else 0
  }

  /** Neighbouring entries of one group never differ in their region number. */
  predicate Consistent(es: seq<RrtInfo>) {
    forall i :: 0 <= i < |es| - 1 && SameGroup(es[i], es[i + 1]) ==> es[i].rating_region == es[i + 1].rating_region
  }

  /** The entry as the group that takes it will report it. */
  function Regioned(gs: seq<Group>, e: RrtInfo): RrtInfo {
    var n := |gs| - 1;
    if gs != [] && Takes(gs[n], e) then e.(rating_region := gs[n].rating) else e
  }

  lemma FlattenAdd(gs: seq<Group>, e: RrtInfo)
    ensures Flatten(Add(gs, e)) == Flatten(gs) + [Regioned(gs, e)]
  {
    hide Takes;
    var n := |gs| - 1;
    var gs' := Add(gs, e);
    if gs != [] && Takes(gs[n], e) {
      assert gs'[..n] == gs[..n];
      JoinsGroup(gs[n], e);
      assert Flatten(gs') == Flatten(gs[..n]) + FlatGroup(gs'[n]);
    } else {
      assert gs'[..|gs|] == gs && FlatGroup(gs'[|gs|]) == [e];
    }
  }

  lemma JoinsGroup(g: Group, e: RrtInfo)
    requires Takes(g, e)
    ensures FlatGroup(g.(definitions := g.definitions + [DefinitionOf(e)]))
            == FlatGroup(g) + [e.(rating_region := g.rating)]
  {}

  /** The last group is that of the last entry, and holds it last. */
  lemma {:induction false} LastGroup(es: seq<RrtInfo>)
    requires es != []
    ensures var gs, e := Build(es), es[|es| - 1];
            && gs != []
            && var g := gs[|gs| - 1];
            && g.definitions != [] && Takes(g, e)
            && g.definitions[|g.definitions| - 1] == DefinitionOf(e)
            && Flatten(gs) != [] && Flatten(gs)[|Flatten(gs)| - 1] == e.(rating_region := g.rating)
  {
    hide Flatten, Add, Takes;
    var p, e := es[..|es| - 1], es[|es| - 1];
    assert Build(es) == Add(Build(p), e);
    FlattenAdd(Build(p), e);
    AddLast(Build(p), e);
  }

  lemma AddLast(gs: seq<Group>, e: RrtInfo)
    ensures var g := Add(gs, e)[|Add(gs, e)| - 1];
            && g.definitions != [] && Takes(g, e)
            && g.definitions[|g.definitions| - 1] == DefinitionOf(e)
            && Regioned(gs, e) == e.(rating_region := g.rating)
  {}

  /** A new group begins exactly where the group of an entry differs from that of the entry before. */
  lemma {:induction false} GroupsBeginAtChanges(es: seq<RrtInfo>)
    ensures |Build(es)| == Changes(es)
    decreases |es|
  {
    hide Flatten;
    if es != [] {
      var n := |es| - 1;
      GroupsBeginAtChanges(es[..n]);
      if n > 0 {
        LastGroup(es[..n]);
        assert es[..n][n - 1] == es[n - 1];
      }
    }
  }

  /** All entries are kept, in order; only the region number may be that of another entry. */
  lemma {:induction false} EntriesKept(es: seq<RrtInfo>)
    ensures |Flatten(Build(es))| == |es|
    ensures forall i :: 0 <= i < |es| ==> Flatten(Build(es))[i].(rating_region := es[i].rating_region) == es[i]
    decreases |es|
  {
    hide Flatten, Add;
    if es == [] {
      NothingFlat();
    } else {
      var n := |es| - 1;
      EntriesKept(es[..n]);
      FlattenAdd(Build(es[..n]), es[n]);
    }
  }

  lemma NothingFlat()
    ensures Build([]) == [] && Flatten([]) == []
  {}

  /** The tree gives back exactly the entries saved if and only if neighbouring entries of one group agree
      on the region number. */
  lemma {:induction false} KeptExactlyIff(es: seq<RrtInfo>)
    ensures Flatten(Build(es)) == es <==> Consistent(es)
    decreases |es|
  {
    hide Flatten, Add, Build, Consistent, Regioned;
    if es == [] {
      NothingFlat();
      NothingInconsistent();
    } else {
      var n := |es| - 1;
      var p, e := es[..n], es[n];
      assert es == p + [e];
      KeptExactlyIff(p);
      BuildNext(p, e);
      FlattenAdd(Build(p), e);
      EntriesKept(p);
      SameEnds(Flatten(Build(p)), p, Regioned(Build(p), e), e);
      if p == [] {
        assert es == [e];
        FirstIsConsistent(e);
      } else if Flatten(Build(p)) == p {
        RegionKept(p, e);
        ConsistentNext(p, e);
      } else {
        ConsistentNext(p, e);
      }
    }
  }

  lemma NothingInconsistent()
    ensures Consistent([])
  {}

  lemma FirstIsConsistent(e: RrtInfo)
    ensures Consistent([e]) && Regioned(Build([]), e) == e
  {
    hide Add;
    NothingFlat();
  }

  lemma SameEnds<T>(a: seq<T>, b: seq<T>, x: T, y: T)
    requires |a| == |b|
    ensures a + [x] == b + [y] <==> a == b && x == y
  {
    if a + [x] == b + [y] {
      assert (a + [x])[..|a|] == a && (b + [y])[..|b|] == b && (a + [x])[|a|] == x && (b + [y])[|b|] == y;
    }
  }

  /** An entry keeps its region number unless it joins the group of another. */
  lemma RegionKept(p: seq<RrtInfo>, e: RrtInfo)
    requires p != [] && Flatten(Build(p)) == p
    ensures var last := p[|p| - 1];
            Regioned(Build(p), e) == e <==> (SameGroup(last, e) ==> last.rating_region == e.rating_region)
  {
    hide Flatten, Add, Build;
    LastGroup(p);
  }

  lemma ConsistentNext(p: seq<RrtInfo>, e: RrtInfo)
    requires p != []
    ensures var last := p[|p| - 1];
            Consistent(p + [e]) <==> Consistent(p) && (SameGroup(last, e) ==> last.rating_region == e.rating_region)
  {
    var es, n := p + [e], |p|;
    assert es[n - 1] == p[n - 1] && es[n] == e;
    if Consistent(es) {
      forall i | 0 <= i < n - 1 && SameGroup(p[i], p[i + 1]) ensures p[i].rating_region == p[i + 1].rating_region {
        assert es[i] == p[i] && es[i + 1] == p[i + 1];
      }
    }
  }

  // ---------------------------------------------------------------- every saved triple is found

  predicate Matches(e: RrtInfo, region: int, dimension: int, value: int) {
    e.rating_region == region && e.dimensions_id == dimension && e.rating_value_id == value
  }

  function FirstMatch(es: seq<RrtInfo>, region: int, dimension: int, value: int): (i: nat)
    ensures i <= |es| && (i < |es| ==> Matches(es[i], region, dimension, value))
    ensures forall j :: 0 <= j < i ==> !Matches(es[j], region, dimension, value)
  {
    if es == [] || Matches(es[0], region, dimension, value) then 0
    else 1 + FirstMatch(es[1..], region, dimension, value)
  }

  lemma {:induction false} FirstMatchConcat(a: seq<RrtInfo>, b: seq<RrtInfo>, region: int, dimension: int, value: int)
    ensures FirstMatch(a + b, region, dimension, value) ==
            var i := FirstMatch(a, region, dimension, value);
            if i < |a| then i else |a| + FirstMatch(b, region, dimension, value)
    decreases |a|
  {
    hide Matches;
    if a == [] {
      assert a + b == b;
    } else {
      assert (a + b)[0] == a[0] && (a + b)[1..] == a[1..] + b;
      FirstMatchConcat(a[1..], b, region, dimension, value);
    }
  }

  lemma {:induction false} FlattenFront(gs: seq<Group>)
    requires gs != []
    ensures Flatten(gs) == FlatGroup(gs[0]) + Flatten(gs[1..])
    decreases |gs|
  {
    hide FlatGroup;
    var n := |gs| - 1;
    if n == 0 {
      assert gs[..0] == [] && gs[1..] == [];
    } else {
      FlattenFront(gs[..n]);
      FlattenTail(gs);
      Assoc(FlatGroup(gs[0]), Flatten(gs[..n][1..]), FlatGroup(gs[n]));
      assert gs[..n][0] == gs[0];
    }
  }

  lemma FlattenTail(gs: seq<Group>)
    requires |gs| > 1
    ensures Flatten(gs[1..]) == Flatten(gs[..|gs| - 1][1..]) + FlatGroup(gs[|gs| - 1])
  {
    hide FlatGroup;
    var n := |gs| - 1;
    assert gs[..n][1..] == gs[1..][..n - 1] && gs[1..][n - 1] == gs[n];
  }

  lemma Assoc<T>(a: seq<T>, b: seq<T>, c: seq<T>)
    ensures a + b + c == a + (b + c)
  {}

  lemma {:induction false} FirstInGroup(g: Group, k: nat, region: int, dimension: int, value: int)
    requires k <= |g.definitions|
    ensures FirstMatch(FlatGroup(g)[k..], region, dimension, value) ==
            if g.rating == region && g.dimension_id == dimension then FirstDefinition(g.definitions[k..], value)
            else |g.definitions| - k
    decreases |g.definitions| - k
  {
    if k < |g.definitions| {
      FirstInGroup(g, k + 1, region, dimension, value);
      assert FlatGroup(g)[k..][1..] == FlatGroup(g)[k + 1..];
      assert g.definitions[k..][1..] == g.definitions[k + 1..];
    }
  }

  function Found(e: RrtInfo): SelectInfo {
    SelectInfo(e.rating_region_name, e.dimensions_name, e.abbrev_rating_value_text)
  }

  /** The first match from a group on is in that group, or the first one behind it. */
  lemma FirstFrom(gs: seq<Group>, region: int, dimension: int, value: int)
    requires gs != []
    ensures var g, n := gs[0], |gs[0].definitions|;
            var i := FirstDefinition(g.definitions, value);
            && Flatten(gs) == FlatGroup(g) + Flatten(gs[1..])
            && FirstMatch(Flatten(gs), region, dimension, value) ==
               if g.rating == region && g.dimension_id == dimension && i < n then i
               else n + FirstMatch(Flatten(gs[1..]), region, dimension, value)
  {
    hide Flatten, FlatGroup, FirstMatch, FirstDefinition, Matches;
    var g := gs[0];
    FlattenFront(gs);
    FirstMatchConcat(FlatGroup(g), Flatten(gs[1..]), region, dimension, value);
    FirstInGroup(g, 0, region, dimension, value);
    assert FlatGroup(g)[0..] == FlatGroup(g) && g.definitions[0..] == g.definitions;
  }

  /** The search succeeds exactly if some entry from the k-th group on matches, and returns the first. */
  lemma {:induction false} SelectIsFirstMatch(gs: seq<Group>, region: int, dimension: int, value: int, k: nat,
                                              info: SelectInfo)
    requires k <= |gs|
    ensures var es := Flatten(gs[k..]);
            var i := FirstMatch(es, region, dimension, value);
            var (r, ret) := Select(gs, region, dimension, value, k, info);
            if i < |es| then r == 0 && ret == Found(es[i]) else r == -1
    decreases |gs| - k
  {
    hide Flatten, FirstMatch, FirstDefinition, Matches;
    if k == |gs| {
      assert gs[k..] == [];
      NothingFlat();
    } else {
      var g := gs[k];
      FirstFrom(gs[k..], region, dimension, value);
      assert gs[k..][1..] == gs[k + 1..];
      var noted := info.(rating_region_name := g.country, dimensions_name := g.name);
      SelectIsFirstMatch(gs, region, dimension, value, k + 1, noted);
      SelectIsFirstMatch(gs, region, dimension, value, k + 1, info);
    }
  }

  predicate Distinct(es: seq<RrtInfo>) {
    forall i, j :: 0 <= i < j < |es| ==>
                     !Matches(es[j], es[i].rating_region, es[i].dimensions_id, es[i].rating_value_id)
  }

  /** What a look-up should find among entries: those that match, with their own names and text. */
  ghost predicate FindsExactly(es: seq<RrtInfo>, gs: seq<Group>, region: int, dimension: int, value: int) {
    var (r, ret) := Select(gs, region, dimension, value, 0, NO_INFO);
    && (r == 0 <==> exists i :: 0 <= i < |es| && Matches(es[i], region, dimension, value))
    && (r != 0 ==> r == -1)
    && (forall i :: 0 <= i < |es| && Matches(es[i], region, dimension, value) ==> ret == Found(es[i]))
  }

  /** Looking up in what was saved: every saved triple is found and gives its own names and abbreviated
      text, every other triple fails. */
  lemma LookupFindsSaved(es: seq<RrtInfo>, region: int, dimension: int, value: int)
    requires Consistent(es) && Distinct(es)
    ensures FindsExactly(es, Build(es), region, dimension, value)
  {
    hide Select, Flatten, Build;
    KeptExactlyIff(es);
    SelectIsFirstMatch(Build(es), region, dimension, value, 0, NO_INFO);
    assert Build(es)[0..] == Build(es);
  }

  // ---------------------------------------------------------------- a received table looked up again

  lemma {:induction false} ValueEntries(info: RrtInfo, d: Dimension, n: nat)
    requires n <= 1 || n <= |d.rating_value|
    ensures var es, after := ValueStream(info, d, n), AfterValues(info, d, n);
            && |es| == (if n <= 1 then 0 else n - 1)
            && after.dimensions_id == info.dimensions_id && after.rating_region == info.rating_region
            && after.rating_region_name == info.rating_region_name && after.dimensions_name == info.dimensions_name
            && forall i :: 0 <= i < |es| ==>
                 && es[i].rating_value_id == i + 1 && es[i].dimensions_id == info.dimensions_id
                 && es[i].rating_region == info.rating_region
                 && es[i].rating_region_name == info.rating_region_name
  {
    if n > 1 {
      ValueEntries(info, d, n - 1);
    }
  }

  lemma {:induction false} DimensionEntries(info: RrtInfo, ds: seq<Dimension>)
    requires ValidDimensions(ds)
    ensures var es, after := DimensionStream(info, ds), AfterDimensions(info, ds);
            && after.dimensions_id == info.dimensions_id + |ds|
            && after.rating_region == info.rating_region && after.rating_region_name == info.rating_region_name
            && Distinct(es)
            && forall i :: 0 <= i < |es| ==>
                 && info.dimensions_id <= es[i].dimensions_id < info.dimensions_id + |ds|
                 && es[i].rating_region == info.rating_region
                 && es[i].rating_region_name == info.rating_region_name
    decreases |ds|
  {
    hide AfterValues, ValueStream;
    if ds != [] {
      var n := |ds| - 1;
      DimensionEntries(info, ds[..n]);
      ValueEntries(DimensionStart(AfterDimensions(info, ds[..n]), ds[n]), ds[n], ds[n].values_defined);
    }
  }

  /** Every section names its region, and no two sections share a region number or a region name. */
  predicate RegionsApart(ss: seq<Section>) {
    && (forall s :: 0 <= s < |ss| ==> ss[s].rating_region_name != [])
    && (forall s, t :: 0 <= s < t < |ss| ==>
          ss[s].rating_region != ss[t].rating_region && ss[s].rating_region_name[0] != ss[t].rating_region_name[0])
  }

  predicate FromSection(e: RrtInfo, s: Section)
    requires s.rating_region_name != []
  {
    e.rating_region == s.rating_region && e.rating_region_name == s.rating_region_name[0]
  }

  lemma {:induction false} StreamEntries(ss: seq<Section>)
    requires ValidSections(ss) && RegionsApart(ss)
    ensures Distinct(Stream(ss))
    ensures forall i :: 0 <= i < |Stream(ss)| ==> exists s :: 0 <= s < |ss| && FromSection(Stream(ss)[i], ss[s])
    decreases |ss|
  {
    hide DimensionStream, AfterDimensions;
    if ss != [] {
      var n := |ss| - 1;
      StreamEntries(ss[..n]);
      var start := SectionStart(AfterSections(ss[..n]), ss[n]);
      DimensionEntries(start, ss[n].dimensions_info);
      var p, q := Stream(ss[..n]), DimensionStream(start, ss[n].dimensions_info);
      assert Stream(ss) == p + q;
      forall i | 0 <= i < |p| + |q|
        ensures exists s :: 0 <= s < |ss| && FromSection((p + q)[i], ss[s])
      {
        if i < |p| {
          var s :| 0 <= s < n && FromSection(p[i], ss[..n][s]);
          assert FromSection((p + q)[i], ss[s]);
        } else {
          assert FromSection((p + q)[i], ss[n]);
        }
      }
      DistinctJoin(p, q, ss);
    }
  }

  lemma DistinctJoin(p: seq<RrtInfo>, q: seq<RrtInfo>, ss: seq<Section>)
    requires Distinct(p) && Distinct(q) && ss != [] && RegionsApart(ss)
    requires forall i :: 0 <= i < |p| ==> exists s :: 0 <= s < |ss| - 1 && FromSection(p[i], ss[s])
    requires forall i :: 0 <= i < |q| ==> FromSection(q[i], ss[|ss| - 1])
    ensures Distinct(p + q)
  {
    var es := p + q;
    forall i, j | 0 <= i < j < |es|
      ensures !Matches(es[j], es[i].rating_region, es[i].dimensions_id, es[i].rating_value_id)
    {
      if i < |p| <= j {
        assert es[i] == p[i] && es[j] == q[j - |p|];
        var s :| 0 <= s < |ss| - 1 && FromSection(p[i], ss[s]);
        assert FromSection(q[j - |p|], ss[|ss| - 1]);
      } else if i >= |p| {
        assert es[i] == q[i - |p|] && es[j] == q[j - |p|];
      }
    }
  }

  lemma StreamConsistent(ss: seq<Section>)
    requires ValidSections(ss) && RegionsApart(ss)
    ensures Consistent(Stream(ss))
  {
    hide Stream;
    StreamEntries(ss);
    var es := Stream(ss);
    forall i | 0 <= i < |es| - 1 && SameGroup(es[i], es[i + 1]) ensures es[i].rating_region == es[i + 1].rating_region {
      var s :| 0 <= s < |ss| && FromSection(es[i], ss[s]);
      var k := i + 1;
      var t :| 0 <= t < |ss| && FromSection(es[k], ss[t]);
      assert s == t;
    }
  }

  lemma PrefixKeeps(es: seq<RrtInfo>, k: nat)
    requires k <= |es| && Consistent(es) && Distinct(es)
    ensures Consistent(es[..k]) && Distinct(es[..k])
  {
    var p := es[..k];
    forall i | 0 <= i < |p| - 1 && SameGroup(p[i], p[i + 1]) ensures p[i].rating_region == p[i + 1].rating_region {
      assert p[i] == es[i] && p[i + 1] == es[i + 1];
    }
  }

  /** A received table whose regions have numbers and names of their own is looked up entry by entry in the
      file: each triple covered by the last write that succeeded gives its own names and text, every other
      triple fails. If no write succeeded, the file is the one before. */
  lemma UpdateThenLookup(ss: seq<Section>, saves: nat -> bool, first: nat, before: Stored,
                         region: int, dimension: int, value: int)
    requires ValidSections(ss) && RegionsApart(ss)
    ensures var es := Stream(ss);
            var k := Written(|es|, saves, first);
            if k == 0 then FileAfter(es, saves, first, before) == before
            else && FileAfter(es, saves, first, before) == File(ToXml(Build(es[..k])))
                 && FindsExactly(es[..k], Build(es[..k]), region, dimension, value)
  {
    hide Stream, Select, Build, Matches, Consistent, Distinct, ToXml, FindsExactly;
    var es := Stream(ss);
    var k := Written(|es|, saves, first);
    StreamEntries(ss);
    StreamConsistent(ss);
    PrefixKeeps(es, k);
    LookupFindsSaved(es[..k], region, dimension, value);
  }

  // ---------------------------------------------------------------- what the file says about the table

  /** The entry a value of the table is to have, if none of its texts is missing. */
  predicate Shows(e: RrtInfo, s: Section, k: nat, j: nat)
    requires k < |s.dimensions_info| && j < |s.dimensions_info[k].rating_value|
  {
    var d := s.dimensions_info[k];
    var v := d.rating_value[j];
    && e.rating_region == s.rating_region && e.dimensions_id == k && e.rating_value_id == j
    && (s.rating_region_name != [] ==> e.rating_region_name == s.rating_region_name[0])
    && (d.dimensions_name != [] ==> e.dimensions_name == d.dimensions_name[0])
    && (v.abbrev_rating_value_text != [] ==> e.abbrev_rating_value_text == v.abbrev_rating_value_text[0])
    && (v.rating_value_text != [] ==> e.rating_value_text == v.rating_value_text[0])
  }

  /** Entry j - 1 of a dimension is that of value j: its own first strings, or those of the value before. */
  lemma {:induction false} ValueAt(info: RrtInfo, d: Dimension, n: nat, j: nat)
    requires 1 <= j < n <= |d.rating_value|
    ensures var es, v := ValueStream(info, d, n), d.rating_value[j];
            && |es| == n - 1
            && es[j - 1].rating_region == info.rating_region && es[j - 1].dimensions_id == info.dimensions_id
            && es[j - 1].rating_value_id == j
            && es[j - 1].rating_region_name == info.rating_region_name
            && es[j - 1].dimensions_name == info.dimensions_name
            && es[j - 1].abbrev_rating_value_text ==
               (if v.abbrev_rating_value_text != [] then v.abbrev_rating_value_text[0]
                else (if j > 1 then es[j - 2] else info).abbrev_rating_value_text)
            && es[j - 1].rating_value_text ==
               (if v.rating_value_text != [] then v.rating_value_text[0]
                else (if j > 1 then es[j - 2] else info).rating_value_text)
    decreases n
  {
    ValuesCounted(info, d, n - 1);
    if j < n - 1 {
      ValueAt(info, d, n - 1, j);
    } else {
      FixedParts(info, d, j + 1);
      if j > 1 {
        assert ValueStream(info, d, n - 1)[j - 2] == AfterValues(info, d, n - 1);
      }
    }
  }

  lemma {:induction false} ValuesCounted(info: RrtInfo, d: Dimension, n: nat)
    requires n <= 1 || n <= |d.rating_value|
    ensures |ValueStream(info, d, n)| == if n > 1 then n - 1 else 0
  {
    if n > 1 {
      ValuesCounted(info, d, n - 1);
    }
  }

  lemma {:induction false} FixedParts(info: RrtInfo, d: Dimension, n: nat)
    requires n <= 1 || n <= |d.rating_value|
    ensures var e := AfterValues(info, d, n);
            && e.rating_region == info.rating_region && e.dimensions_id == info.dimensions_id
            && e.rating_region_name == info.rating_region_name && e.dimensions_name == info.dimensions_name
  {
    if n > 1 {
      FixedParts(info, d, n - 1);
    }
  }

  lemma DimensionsCounted(info: RrtInfo, ds: seq<Dimension>)
    requires ValidDimensions(ds)
    ensures var after := AfterDimensions(info, ds);
            && after.dimensions_id == info.dimensions_id + |ds|
            && after.rating_region == info.rating_region && after.rating_region_name == info.rating_region_name
  {
    hide AfterDimensions, DimensionStream;
    DimensionEntries(info, ds);
  }

  /** The entries of a section's dimensions, by position in the table. */
  lemma {:induction false} DimensionHas(s: Section, info: RrtInfo, n: nat, k: nat, j: nat) returns (i: nat)
    requires ValidDimensions(s.dimensions_info) && k < n <= |s.dimensions_info|
    requires 1 <= j < s.dimensions_info[k].values_defined
    requires info.rating_region == s.rating_region && info.dimensions_id == 0
    requires s.rating_region_name != [] ==> info.rating_region_name == s.rating_region_name[0]
    ensures i < |DimensionStream(info, s.dimensions_info[..n])|
    ensures Shows(DimensionStream(info, s.dimensions_info[..n])[i], s, k, j)
    decreases n
  {
    var ds := s.dimensions_info[..n];
    assert ds[..n - 1] == s.dimensions_info[..n - 1];
    if k < n - 1 {
      hide ValueStream, AfterValues, Shows;
      i := DimensionHas(s, info, n - 1, k, j);
    } else {
      DimensionsCounted(info, ds[..k]);
      var start := DimensionStart(AfterDimensions(info, ds[..k]), ds[k]);
      ValueAt(start, ds[k], ds[k].values_defined, j);
      hide ValueStream, AfterValues, AfterDimensions;
      i := |DimensionStream(info, ds[..k])| + (j - 1);
    }
  }

  /** Every value of a received table but value 0 has its entry. */
  lemma {:induction false} StreamHas(ss: seq<Section>, t: nat, k: nat, j: nat) returns (i: nat)
    requires ValidSections(ss) && t < |ss| && k < |ss[t].dimensions_info|
    requires 1 <= j < ss[t].dimensions_info[k].values_defined
    ensures i < |Stream(ss)| && Shows(Stream(ss)[i], ss[t], k, j)
    decreases |ss|
  {
    hide DimensionStream, AfterDimensions, Shows;
    var n := |ss| - 1;
    if t < n {
      assert ss[..n][t] == ss[t];
      i := StreamHas(ss[..n], t, k, j);
    } else {
      var s := ss[n];
      var start := SectionStart(AfterSections(ss[..n]), s);
      assert s.dimensions_info[..|s.dimensions_info|] == s.dimensions_info;
      i := DimensionHas(s, start, |s.dimensions_info|, k, j);
      i := |Stream(ss[..n])| + i;
    }
  }

  /** The table has a value with these three numbers. */
  ghost predicate Lists(ss: seq<Section>, region: int, dimension: int, value: int) {
    exists t :: 0 <= t < |ss| && ss[t].rating_region == region
                && 0 <= dimension < |ss[t].dimensions_info|
                && 1 <= value < ss[t].dimensions_info[dimension].values_defined
  }

  lemma {:induction false} ValueOnly(info: RrtInfo, d: Dimension, n: nat, i: nat)
    requires (n <= 1 || n <= |d.rating_value|) && i < |ValueStream(info, d, n)|
    ensures var e := ValueStream(info, d, n)[i];
            && e.rating_region == info.rating_region && e.dimensions_id == info.dimensions_id
            && 1 <= e.rating_value_id < n
  {
    ValuesCounted(info, d, n);
    ValueAt(info, d, n, i + 1);
  }

  lemma {:induction false} DimensionOnly(info: RrtInfo, ds: seq<Dimension>, i: nat)
    requires ValidDimensions(ds) && info.dimensions_id == 0 && i < |DimensionStream(info, ds)|
    ensures var e := DimensionStream(info, ds)[i];
            && e.rating_region == info.rating_region && 0 <= e.dimensions_id < |ds|
            && 1 <= e.rating_value_id < ds[e.dimensions_id].values_defined
    decreases |ds|
  {
    hide ValueStream, AfterValues;
    var n := |ds| - 1;
    if i < |DimensionStream(info, ds[..n])| {
      DimensionOnly(info, ds[..n], i);
    } else {
      DimensionEntries(info, ds[..n]);
      var start := DimensionStart(AfterDimensions(info, ds[..n]), ds[n]);
      hide AfterDimensions;
      ValueOnly(start, ds[n], ds[n].values_defined, i - |DimensionStream(info, ds[..n])|);
    }
  }

  lemma {:induction false} StreamOnly(ss: seq<Section>, i: nat)
    requires ValidSections(ss) && i < |Stream(ss)|
    ensures var e := Stream(ss)[i]; Lists(ss, e.rating_region, e.dimensions_id, e.rating_value_id)
    decreases |ss|
  {
    hide DimensionStream, AfterDimensions;
    var n := |ss| - 1;
    var e := Stream(ss)[i];
    if i < |Stream(ss[..n])| {
      StreamOnly(ss[..n], i);
      var t :| 0 <= t < n && ss[..n][t].rating_region == e.rating_region
               && 0 <= e.dimensions_id < |ss[..n][t].dimensions_info|
               && 1 <= e.rating_value_id < ss[..n][t].dimensions_info[e.dimensions_id].values_defined;
      assert ss[..n][t] == ss[t];
    } else {
      var start := SectionStart(AfterSections(ss[..n]), ss[n]);
      DimensionOnly(start, ss[n].dimensions_info, i - |Stream(ss[..n])|);
      assert ss[n].rating_region == e.rating_region;
    }
  }

  /** Look-up in the file after a received table was saved with its last write succeeding, told by the table
      alone: a triple is found exactly if the table has a value with these numbers, and then it gives the
      first string of the region's name, of the dimension's name, and of the value's abbreviation. */
  lemma TableLookedUp(ss: seq<Section>, saves: nat -> bool, first: nat, before: Stored,
                      region: int, dimension: int, value: int)
    requires ValidSections(ss) && RegionsApart(ss)
    requires Stream(ss) != [] && saves(first + |Stream(ss)| - 1)
    ensures var gs := Build(Stream(ss));
            var (r, ret) := Select(gs, region, dimension, value, 0, NO_INFO);
            && FileAfter(Stream(ss), saves, first, before) == File(ToXml(gs))
            && (r == 0 <==> Lists(ss, region, dimension, value)) && (r != 0 ==> r == -1)
            && forall t :: 0 <= t < |ss| && ss[t].rating_region == region
                           && 0 <= dimension < |ss[t].dimensions_info|
                           && 1 <= value < ss[t].dimensions_info[dimension].values_defined ==>
                 && ret.rating_region_name == ss[t].rating_region_name[0]
                 && var d := ss[t].dimensions_info[dimension];
                 && (d.dimensions_name != [] ==> ret.dimensions_name == d.dimensions_name[0])
                 && (d.rating_value[value].abbrev_rating_value_text != [] ==>
                       ret.rating_value_text == d.rating_value[value].abbrev_rating_value_text[0])
  {
    hide Stream, Select, Build, ToXml;
    var es := Stream(ss);
    UpdateThenLookup(ss, saves, first, before, region, dimension, value);
    assert Written(|es|, saves, first) == |es| && es[..|es|] == es;
    if i :| 0 <= i < |es| && Matches(es[i], region, dimension, value) {
      StreamOnly(ss, i);
    }
    forall t | 0 <= t < |ss| && ss[t].rating_region == region && 0 <= dimension < |ss[t].dimensions_info|
               && 1 <= value < ss[t].dimensions_info[dimension].values_defined
      ensures exists i :: 0 <= i < |es| && Matches(es[i], region, dimension, value)
                          && Shows(es[i], ss[t], dimension, value)
    {
      var i := StreamHas(ss, t, dimension, value);
      assert Matches(es[i], region, dimension, value);
    }
  }

  /** The document determines its groups, every definition's description included. */
  lemma DocumentDetermines(gs: seq<Group>, hs: seq<Group>)
    requires ToXml(gs) == ToXml(hs)
    ensures gs == hs
  {
    var x, y := ToXml(gs).children, ToXml(hs).children;
    assert |gs| == |x| == |y| == |hs|;
    forall i | 0 <= i < |gs| ensures gs[i] == hs[i] {
      assert x[i] == GroupXml(gs[i]) && y[i] == GroupXml(hs[i]);
      GroupDetermined(gs[i], hs[i]);
    }
  }

  lemma GroupDetermined(g: Group, h: Group)
    requires GroupXml(g) == GroupXml(h)
    ensures g == h
  {
    var x, y := GroupXml(g), GroupXml(h);
    GroupAttributes(g);
    GroupAttributes(h);
    assert x.attributes[0] == y.attributes[0] && x.attributes[1] == y.attributes[1]
           && x.attributes[2] == y.attributes[2] && x.attributes[3] == y.attributes[3];
    forall i | 0 <= i < |x.children| ensures g.definitions[i] == h.definitions[i] {
      assert x.children[i] == DefinitionXml(g.definitions[i]) && y.children[i] == DefinitionXml(h.definitions[i]);
      DefinitionDetermined(g.definitions[i], h.definitions[i]);
    }
    assert |g.definitions| == |x.children| == |h.definitions|;
    assert g.definitions == h.definitions;
  }

  lemma DefinitionDetermined(d: Definition, c: Definition)
    requires DefinitionXml(d) == DefinitionXml(c)
    ensures d == c
  {
    var x, y := DefinitionXml(d).attributes, DefinitionXml(c).attributes;
    assert x[0] == y[0] && x[1] == y[1] && x[2] == y[2];
  }
}
