/** The package manifests and property objects: the relationship table of
    word/_rels/document.xml.rels with its queue of media files to copy, the
    content-type registry of [Content_Types].xml, and the core, application
    and web-settings property objects. The manifests follow the relationship
    and content-type parts of the Open Packaging Conventions (ISO/IEC 29500-2,
    clauses 9.3 and 10.1.2). */
module Meta {
  import opened Wrappers
  import opened XmlTree
  import opened Strings
  import opened Namespaces
  import opened Utils

  // ---------------------------------------------------------------------
  // Relationships
  // ---------------------------------------------------------------------

  const RELATIONSHIPS_NS: string := "http://schemas.openxmlformats.org/package/2006/relationships"
  const RELATIONSHIP_TYPES: string := "http://schemas.openxmlformats.org/officeDocument/2006/relationships/"
  const IMAGE_TYPE: string := RELATIONSHIP_TYPES + "image"

  /** One `[Id, Type, Target]` entry. A field is None when the manifest element
      it was loaded from lacked that attribute (`r.get` returns None). */
  datatype Relationship = Relationship(id: Option<string>, relType: Option<string>, target: Option<string>)

  /** One `[name, path]` entry of `to_copy`: a file to store as word/media/name. */
  datatype MediaCopy = MediaCopy(name: string, path: string)

  /** The identifier given to the n-th relationship. */
  function RelId(n: nat): string
  {
    "rId" + NatToString(n)
  }

  /** The relationship table of a document created without a template. */
  function DefaultRelationships(): seq<Relationship>
  {
    [ Relationship(Some("rId1"), Some(RELATIONSHIP_TYPES + "numbering"), Some("numbering.xml")),
      Relationship(Some("rId2"), Some(RELATIONSHIP_TYPES + "styles"), Some("styles.xml")),
      Relationship(Some("rId3"), Some(RELATIONSHIP_TYPES + "settings"), Some("settings.xml")),
      Relationship(Some("rId4"), Some(RELATIONSHIP_TYPES + "webSettings"), Some("webSettings.xml")),
      Relationship(Some("rId5"), Some(RELATIONSHIP_TYPES + "fontTable"), Some("fontTable.xml")),
      Relationship(Some("rId6"), Some(RELATIONSHIP_TYPES + "theme"), Some("theme/theme1.xml")) ]
  }

  /** Entry i carries the identifier rId(i+1), as the table's own appends make it. */
  ghost predicate Sequential(rels: seq<Relationship>)
  {
    forall i :: 0 <= i < |rels| ==> rels[i].id == Some(RelId(i + 1))
  }

  /** The default table is six complete entries rId1..rId6, in the order
      numbering, styles, settings, webSettings, fontTable, theme. */
  lemma {:induction false} DefaultRelationshipsShape()
    ensures |DefaultRelationships()| == 6 && Sequential(DefaultRelationships())
    ensures forall i :: 0 <= i < 6 ==> Complete(DefaultRelationships()[i])
    ensures [ DefaultRelationships()[0].relType, DefaultRelationships()[1].relType,
              DefaultRelationships()[2].relType, DefaultRelationships()[3].relType,
              DefaultRelationships()[4].relType, DefaultRelationships()[5].relType ]
         == [ Some(RELATIONSHIP_TYPES + "numbering"), Some(RELATIONSHIP_TYPES + "styles"),
              Some(RELATIONSHIP_TYPES + "settings"), Some(RELATIONSHIP_TYPES + "webSettings"),
              Some(RELATIONSHIP_TYPES + "fontTable"), Some(RELATIONSHIP_TYPES + "theme") ]
  {
    var d := DefaultRelationships();
    assert RelId(1) == "rId1" && RelId(2) == "rId2" && RelId(3) == "rId3";
    assert RelId(4) == "rId4" && RelId(5) == "rId5" && RelId(6) == "rId6";
    assert forall i :: 0 <= i < 6 ==> d[i].id == Some(RelId(i + 1));
  }

  /** In a sequential table every identifier is different. */
  lemma {:induction false} SequentialIdsUnique(rels: seq<Relationship>)
    requires Sequential(rels)
    ensures forall i, j :: 0 <= i < j < |rels| ==> rels[i].id != rels[j].id
  {
    forall i, j | 0 <= i < j < |rels| ensures rels[i].id != rels[j].id {
      if rels[i].id == rels[j].id {
        assert "rId" + NatToString(i + 1) == "rId" + NatToString(j + 1);
        assert NatToString(i + 1) == ("rId" + NatToString(i + 1))[3..];
        assert NatToString(j + 1) == ("rId" + NatToString(j + 1))[3..];
        NatToStringInjective(i + 1, j + 1);
      }
    }
  }

  /** The relationship an image of the given name adds to a table of n
      entries: identifier rId(n+1), image type, target media/name. */
  function ImageRelationship(n: nat, picname: string): (r: Relationship)
    ensures r.id == Some(RelId(n + 1)) && r.relType == Some(IMAGE_TYPE)
    ensures r.target == Some("media/" + picname)
  {
    Relationship(Some(RelId(n + 1)), Some(IMAGE_TYPE), Some("media/" + picname))
  }

  /** Appending image relationships keeps a sequential table sequential, so
      its identifiers stay unique. */
  lemma {:induction false} AppendImageKeepsSequential(rels: seq<Relationship>, picname: string)
    requires Sequential(rels)
    ensures Sequential(rels + [ImageRelationship(|rels|, picname)])
  {
  }

  /** A loaded table need not be sequential; then the identifier the next
      image gets can already be taken. */
  lemma {:induction false} LoadedTableCanCollide()
    ensures var rels := [Relationship(Some("rId2"), Some(RELATIONSHIP_TYPES + "styles"), Some("styles.xml"))];
            ImageRelationship(|rels|, "a.png").id == rels[0].id
  {
    assert RelId(2) == "rId2";
  }

  /** All three fields are present. */
  predicate Complete(r: Relationship)
  {
    r.id.Some? && r.relType.Some? && r.target.Some?
  }

  /** Loading a manifest: one entry per child element, in document order. */
  function LoadRelationships(root: Node): (r: seq<Relationship>)
    ensures |r| == |root.children|
  {
    seq(|root.children|, i requires 0 <= i < |root.children| =>
      Relationship(Get(root.children[i], "Id"), Get(root.children[i], "Type"), Get(root.children[i], "Target")))
  }

  /** The element one complete entry serialises to. */
  function RelationshipElement(r: Relationship): (n: Node)
    requires Complete(r)
  {
    Node("Relationship", map[], map["Id" := r.id.value, "Type" := r.relType.value, "Target" := r.target.value],
         None, [])
  }

  /** Each manifest element is what the element factory builds from its tag
      and attributes with no namespace prefix. */
  lemma {:induction false} ManifestElementsAreMade(r: Relationship, part: string, extension: string, contentType: string)
    requires Complete(r)
    ensures MakeElement("Relationship", "", One(""),
                        map["Id" := r.id.value, "Type" := r.relType.value, "Target" := r.target.value], "")
         == Ok(RelationshipElement(r))
    ensures MakeElement("Override", "", One(""), map["PartName" := part, "ContentType" := contentType], "")
         == Ok(OverrideElement(part, contentType))
    ensures MakeElement("Default", "", One(""), map["Extension" := extension, "ContentType" := contentType], "")
         == Ok(DefaultElement(extension, contentType))
  {
    MakePlainElement("Relationship", "", map["Id" := r.id.value, "Type" := r.relType.value, "Target" := r.target.value]);
    MakePlainElement("Override", "", map["PartName" := part, "ContentType" := contentType]);
    MakePlainElement("Default", "", map["Extension" := extension, "ContentType" := contentType]);
  }

  /** The root element parsed from the empty manifest the serialiser starts from. */
  const RELATIONSHIPS_ROOT: Node :=
    Node("{" + RELATIONSHIPS_NS + "}Relationships", map["" := RELATIONSHIPS_NS], map[],
         Some("\n            "), [])

  /** The relationships manifest: one Relationship per entry, in order; lxml
      refuses a None attribute value, so an incomplete entry fails. */
  function RelationshipsXml(rels: seq<Relationship>): (r: Result<Node>)
    ensures r.Ok? <==> forall i :: 0 <= i < |rels| ==> Complete(rels[i])
    ensures r.Ok? ==> r.value.tag == RELATIONSHIPS_ROOT.tag && |r.value.children| == |rels|
    ensures r.Ok? ==> forall i :: 0 <= i < |rels| ==>
              r.value.children[i].tag == "Relationship" &&
              r.value.children[i].attrs == map["Id" := rels[i].id.value, "Type" := rels[i].relType.value,
                                               "Target" := rels[i].target.value]
  {
    if exists i :: 0 <= i < |rels| && !Complete(rels[i]) then Err(TypeError)
    else
      Ok(RELATIONSHIPS_ROOT.(children := seq(|rels|, i requires 0 <= i < |rels| => RelationshipElement(rels[i]))))
  }

  /** Loading a serialised table gives the table back. */
  lemma {:induction false} RelationshipsRoundTrip(rels: seq<Relationship>)
    requires forall i :: 0 <= i < |rels| ==> Complete(rels[i])
    ensures RelationshipsXml(rels).Ok?
    ensures LoadRelationships(RelationshipsXml(rels).value) == rels
  {
    var loaded := LoadRelationships(RelationshipsXml(rels).value);
    forall i | 0 <= i < |rels| ensures loaded[i] == rels[i] {
      var c := RelationshipsXml(rels).value.children[i];
      assert Get(c, "Id") == rels[i].id && Get(c, "Type") == rels[i].relType && Get(c, "Target") == rels[i].target;
    }
  }

  /** Serialising a loaded manifest keeps every entry's Id, Type and Target,
      in order. */
  lemma {:induction false} LoadedRelationshipsReserialise(root: Node)
    requires forall i :: 0 <= i < |root.children| ==>
               "Id" in root.children[i].attrs && "Type" in root.children[i].attrs && "Target" in root.children[i].attrs
    ensures RelationshipsXml(LoadRelationships(root)).Ok?
    ensures forall i :: 0 <= i < |root.children| ==>
              var c := RelationshipsXml(LoadRelationships(root)).value.children[i];
              c.attrs["Id"] == root.children[i].attrs["Id"] && c.attrs["Type"] == root.children[i].attrs["Type"] &&
              c.attrs["Target"] == root.children[i].attrs["Target"]
  {
  }

  /** The relationship table and its media queue (`WordRelationships`). */
  class WordRelationships {
    var relationshiplist: seq<Relationship>
    var toCopy: seq<MediaCopy>

    /** Loaded from a manifest when one is given (an absent or empty part
        gives None), the six defaults otherwise; the media queue starts empty. */
    constructor (xml: Option<Node>)
      ensures toCopy == []
      ensures xml.Some? ==> relationshiplist == LoadRelationships(xml.value)
      ensures xml.None? ==> relationshiplist == DefaultRelationships()
    {
      toCopy := [];
      relationshiplist := if xml.Some? then LoadRelationships(xml.value) else DefaultRelationships();
    }

    /** `_xml`: the manifest of the current table. */
    function Xml(): (r: Result<Node>)
      reads this
      ensures r.Ok? ==> LoadRelationships(r.value) == relationshiplist
    {
      var r := RelationshipsXml(relationshiplist);
      if r.Ok? then RelationshipsRoundTrip(relationshiplist); r else r
    }
  }

  // ---------------------------------------------------------------------
  // Content types
  // ---------------------------------------------------------------------

  const CONTENT_TYPES_NS: string := "http://schemas.openxmlformats.org/package/2006/content-types"

  /** The registry: part name to content type, as loaded (either may be None
      when the manifest element lacked the attribute). */
  type TypeMap = map<Option<string>, Option<string>>

  /** The media-type stems every default content type shares. */
  const OFFICE_TYPE: string := "application/vnd.openxmlformats-officedocument."
  const WORD_TYPE: string := OFFICE_TYPE + "wordprocessingml."

  /** The Override part names and types of a document created without a template. */
  function DefaultContentTypes(): TypeMap
  {
    map[
      Some("/word/theme/theme1.xml") := Some(OFFICE_TYPE + "theme+xml"),
      Some("/word/fontTable.xml") := Some(WORD_TYPE + "fontTable+xml"),
      Some("/docProps/core.xml") := Some("application/vnd.openxmlformats-package.core-properties+xml"),
      Some("/docProps/app.xml") := Some(OFFICE_TYPE + "extended-properties+xml"),
      Some("/word/document.xml") := Some(WORD_TYPE + "document.main+xml"),
      Some("/word/settings.xml") := Some(WORD_TYPE + "settings+xml"),
      Some("/word/numbering.xml") := Some(WORD_TYPE + "numbering+xml"),
      Some("/word/styles.xml") := Some(WORD_TYPE + "styles+xml"),
      Some("/word/webSettings.xml") := Some(WORD_TYPE + "webSettings+xml")
    ]
  }

  /** Every part of the default registry has a name and a type, the main
      document part among them. */
  lemma {:induction false} DefaultContentTypesShape()
    ensures forall k :: k in DefaultContentTypes() ==> k.Some? && DefaultContentTypes()[k].Some?
    ensures Some("/word/document.xml") in DefaultContentTypes()
    ensures DefaultContentTypes()[Some("/word/document.xml")] == Some(WORD_TYPE + "document.main+xml")
  {
  }

  /** The part names of the default registry. */
  const DEFAULT_PARTS: seq<string> := [
    "/word/theme/theme1.xml", "/word/fontTable.xml", "/docProps/core.xml", "/docProps/app.xml",
    "/word/document.xml", "/word/settings.xml", "/word/numbering.xml", "/word/styles.xml",
    "/word/webSettings.xml"
  ]

  /** The default registry holds nine parts. */
  lemma {:induction false} DefaultContentTypesCount()
    ensures |DefaultContentTypes()| == 9
  {
    DefaultKeys();
    DistinctCount(DEFAULT_PARTS);
  }

  /** The registry's keys are the nine part names. */
  lemma {:induction false} DefaultKeys()
    ensures DefaultContentTypes().Keys == set i | 0 <= i < |DEFAULT_PARTS| :: Some(DEFAULT_PARTS[i])
  {
    var named := set i | 0 <= i < |DEFAULT_PARTS| :: Some(DEFAULT_PARTS[i]);
    forall k | k in DefaultContentTypes() ensures k in named {
      assert k == Some(DEFAULT_PARTS[0]) || k == Some(DEFAULT_PARTS[1]) || k == Some(DEFAULT_PARTS[2]) ||
             k == Some(DEFAULT_PARTS[3]) || k == Some(DEFAULT_PARTS[4]) || k == Some(DEFAULT_PARTS[5]) ||
             k == Some(DEFAULT_PARTS[6]) || k == Some(DEFAULT_PARTS[7]) || k == Some(DEFAULT_PARTS[8]);
    }
  }

  /** Distinct names give as many keys as there are names. */
  lemma {:induction false} DistinctCount(names: seq<string>)
    requires forall i, j :: 0 <= i < j < |names| ==> names[i] != names[j]
    ensures |set i | 0 <= i < |names| :: Some(names[i])| == |names|
  {
    if names != [] {
      var init := names[..|names| - 1];
      DistinctCount(init);
      var s := set i | 0 <= i < |init| :: Some(init[i]);
      assert (set i | 0 <= i < |names| :: Some(names[i])) == s + {Some(names[|names| - 1])};
    }
  }

  /** The extension table written after the Overrides. The source iterates
      a dict here, so this one order stands for whichever order it yields. */
  const DEFAULT_EXTENSIONS: seq<(string, string)> := [
    ("rels", "application/vnd.openxmlformats-package.relationships+xml"),
    ("xml", "application/xml"),
    ("jpeg", "image/jpeg"),
    ("gif", "image/gif"),
    ("png", "image/png"),
    ("wmf", "image/x-wmf")
  ]

  /** A child the loader keeps: its tag contains "Override". */
  predicate IsOverride(n: Node)
  {
    Contains(n.tag, "Override")
  }

  /** Loading a manifest (`ContentTypes(xml)`): the Override children, in
      document order, each setting its PartName to its ContentType. */
  function LoadContentTypes(children: seq<Node>): TypeMap
  {
    if children == [] then map[]
    else
      var m := LoadContentTypes(children[..|children| - 1]);
      var last := children[|children| - 1];
      if IsOverride(last) then m[Get(last, "PartName") := Get(last, "ContentType")] else m
  }

  /** Loading keeps only Override children, keyed by PartName, and where
      several share a PartName the last one wins. */
  lemma {:induction false} LoadContentTypesKeeps(children: seq<Node>)
    ensures forall k :: k in LoadContentTypes(children) ==>
              exists i :: 0 <= i < |children| && IsOverride(children[i]) && Get(children[i], "PartName") == k
    ensures forall i :: 0 <= i < |children| && IsOverride(children[i]) &&
                        (forall j :: i < j < |children| && IsOverride(children[j]) ==>
                                       Get(children[j], "PartName") != Get(children[i], "PartName")) ==>
              Get(children[i], "PartName") in LoadContentTypes(children) &&
              LoadContentTypes(children)[Get(children[i], "PartName")] == Get(children[i], "ContentType")
  {
    if children != [] {
      var init := children[..|children| - 1];
      LoadContentTypesKeeps(init);
      assert forall i :: 0 <= i < |init| ==> init[i] == children[i];
    }
  }

  /** `order` lists every key of `types` exactly once: the order in which
      the dictionary happens to iterate, which Python 2 leaves unspecified. */
  ghost predicate Enumerates(order: seq<Option<string>>, types: TypeMap)
  {
    && |order| == |types|
    && (forall k :: k in types <==> k in order)
    && (forall i, j :: 0 <= i < j < |order| ==> order[i] != order[j])
  }

  /** The Override element for one complete registry entry. */
  function OverrideElement(part: string, contentType: string): (r: Node)
    ensures IsOverride(r)
    ensures Get(r, "PartName") == Some(part) && Get(r, "ContentType") == Some(contentType)
  {
    assert Find("Override", "Override") == Some(0);
    Node("Override", map[], map["PartName" := part, "ContentType" := contentType], None, [])
  }

  /** The Default element for one extension of the fixed table. */
  function DefaultElement(extension: string, contentType: string): (r: Node)
    ensures !IsOverride(r)
  {
    Node("Default", map[], map["Extension" := extension, "ContentType" := contentType], None, [])
  }

  /** The Override elements of the entries listed in `order`, in that order. */
  function OverrideElements(types: TypeMap, order: seq<Option<string>>): (r: seq<Node>)
    requires forall i :: 0 <= i < |order| ==> order[i] in types && order[i].Some? && types[order[i]].Some?
    ensures |r| == |order|
    ensures forall i :: 0 <= i < |order| ==> r[i] == OverrideElement(order[i].value, types[order[i]].value)
  {
    seq(|order|, i requires 0 <= i < |order| => OverrideElement(order[i].value, types[order[i]].value))
  }

  /** One Default element per entry of the extension table. */
  function DefaultElements(): (r: seq<Node>)
    ensures |r| == 6
    ensures forall i :: 0 <= i < 6 ==> r[i] == DefaultElement(DEFAULT_EXTENSIONS[i].0, DEFAULT_EXTENSIONS[i].1)
  {
    seq(6, i requires 0 <= i < 6 => DefaultElement(DEFAULT_EXTENSIONS[i].0, DEFAULT_EXTENSIONS[i].1))
  }

  /** The serialised registry: one Override per entry in iteration order,
      then the six Defaults; a None name or type fails in lxml. */
  function ContentTypesXml(types: TypeMap, order: seq<Option<string>>): (r: Result<Node>)
    requires Enumerates(order, types)
    ensures r.Ok? <==> forall k :: k in types ==> k.Some? && types[k].Some?
    ensures r.Ok? ==> r.value.tag == "{" + CONTENT_TYPES_NS + "}Types"
    ensures r.Ok? ==> |r.value.children| == |types| + 6
    ensures r.Ok? ==> forall i :: 0 <= i < |order| ==>
              r.value.children[i].tag == "Override" &&
              r.value.children[i].attrs == map["PartName" := order[i].value, "ContentType" := types[order[i]].value]
    ensures r.Ok? ==> forall i :: 0 <= i < 6 ==>
              r.value.children[|types| + i].tag == "Default" &&
              r.value.children[|types| + i].attrs ==
                map["Extension" := DEFAULT_EXTENSIONS[i].0, "ContentType" := DEFAULT_EXTENSIONS[i].1]
  {
    if exists k :: k in types && (k.None? || types[k].None?) then Err(TypeError)
    else
      var children := OverrideElements(types, order) + DefaultElements();
      assert forall i :: 0 <= i < 6 ==> children[|types| + i] == DefaultElements()[i];
      Ok(Node("{" + CONTENT_TYPES_NS + "}Types", map["" := CONTENT_TYPES_NS], map[], None, children))
  }

  /** A prefix one longer is the shorter prefix and the next element. */
  lemma {:induction false} TakeOneMore<T>(s: seq<T>, n: nat)
    requires 0 < n <= |s|
    ensures s[..n] == s[..n - 1] + [s[n - 1]]
  {
  }

  /** Loading the Overrides of some registry entries, in the order given,
      restores exactly those entries. */
  lemma {:induction false} LoadOverridesExact(types: TypeMap, keys: seq<Option<string>>, overrides: seq<Node>)
    requires forall k :: k in types ==> k.Some? && types[k].Some?
    requires forall i :: 0 <= i < |keys| ==> keys[i] in types
    requires |overrides| == |keys|
    requires forall i :: 0 <= i < |keys| ==>
               overrides[i] == OverrideElement(keys[i].value, types[keys[i]].value)
    ensures forall k :: k in LoadContentTypes(overrides) <==> k in keys
    ensures forall k :: k in LoadContentTypes(overrides) ==> k in types && LoadContentTypes(overrides)[k] == types[k]
  {
    if keys != [] {
      var n := |keys|;
      var key := keys[n - 1];
      LoadOverridesExact(types, keys[..n - 1], overrides[..n - 1]);
      var before := LoadContentTypes(overrides[..n - 1]);
      var after := LoadContentTypes(overrides);
      assert overrides[n - 1] == OverrideElement(key.value, types[key].value);
      assert after == before[key := types[key]];
      TakeOneMore(keys, n);
      forall k ensures k in after <==> k in keys {
        assert k in after <==> k in before || k == key;
      }
      forall k | k in after ensures k in types && after[k] == types[k] {
        if k != key {
          assert k in before;
        }
      }
    }
  }

  lemma {:induction false} LoadIgnoresDefaults(a: seq<Node>, d: seq<Node>)
    requires forall i :: 0 <= i < |d| ==> !IsOverride(d[i])
    ensures LoadContentTypes(a + d) == LoadContentTypes(a)
  {
    if d != [] {
      LoadIgnoresDefaults(a, d[..|d| - 1]);
      assert (a + d)[..|a + d| - 1] == a + d[..|d| - 1];
    } else {
      assert a + d == a;
    }
  }

  /** Loading the Overrides of a complete registry gives the registry back. */
  lemma {:induction false} LoadOverrideElements(types: TypeMap, order: seq<Option<string>>)
    requires Enumerates(order, types)
    requires forall k :: k in types ==> k.Some? && types[k].Some?
    ensures LoadContentTypes(OverrideElements(types, order)) == types
  {
    var overrides := OverrideElements(types, order);
    LoadOverridesAll(types, order, overrides);
  }

  /** Loading the Overrides of every entry in iteration order restores the
      whole registry. */
  lemma {:induction false} LoadOverridesAll(types: TypeMap, order: seq<Option<string>>, overrides: seq<Node>)
    requires Enumerates(order, types)
    requires forall k :: k in types ==> k.Some? && types[k].Some?
    requires |overrides| == |order|
    requires forall i :: 0 <= i < |order| ==>
               overrides[i] == OverrideElement(order[i].value, types[order[i]].value)
    ensures LoadContentTypes(overrides) == types
  {
    LoadOverridesExact(types, order, overrides);
    SameEntries(LoadContentTypes(overrides), types);
  }

  /** Two maps with the same keys and the same value at each are equal. */
  lemma {:induction false} SameEntries<K, V>(a: map<K, V>, b: map<K, V>)
    requires forall k :: k in a <==> k in b
    requires forall k :: k in a ==> a[k] == b[k]
    ensures a == b
  {
  }

  /** Loading a serialised registry gives the registry back: the Defaults are
      not reloaded, and each Override restores its entry. */
  lemma {:induction false} ContentTypesRoundTrip(types: TypeMap, order: seq<Option<string>>)
    requires Enumerates(order, types)
    requires forall k :: k in types ==> k.Some? && types[k].Some?
    ensures ContentTypesXml(types, order).Ok?
    ensures LoadContentTypes(ContentTypesXml(types, order).value.children) == types
  {
    var overrides := OverrideElements(types, order);
    var defaults := DefaultElements();
    assert ContentTypesXml(types, order).value.children == overrides + defaults;
    forall i | 0 <= i < |defaults| ensures !IsOverride(defaults[i]) {
      assert defaults[i] == DefaultElement(DEFAULT_EXTENSIONS[i].0, DEFAULT_EXTENSIONS[i].1);
    }
    LoadIgnoresDefaults(overrides, defaults);
    LoadOverrideElements(types, order);
  }

  /** The manifest of the default registry serialises, with nine Overrides
      and the six Defaults: fifteen elements. */
  lemma {:induction false} DefaultContentTypesXml(order: seq<Option<string>>)
    requires Enumerates(order, DefaultContentTypes())
    ensures ContentTypesXml(DefaultContentTypes(), order).Ok?
    ensures |ContentTypesXml(DefaultContentTypes(), order).value.children| == 15
  {
    DefaultContentTypesShape();
    DefaultContentTypesCount();
  }

  /** The content-type registry (`ContentTypes`). */
  class ContentTypes {
    var types: TypeMap

    /** Loaded from the Override children of a manifest when one is given,
        the nine defaults otherwise. */
    constructor (xml: Option<Node>)
      ensures xml.Some? ==> types == LoadContentTypes(xml.value.children)
      ensures xml.None? ==> types == DefaultContentTypes()
    {
      types := if xml.Some? then LoadContentTypes(xml.value.children) else DefaultContentTypes();
    }
  }

  // ---------------------------------------------------------------------
  // Property objects
  // ---------------------------------------------------------------------

  /** The document's core properties (docProps/core.xml). */
  class CoreProperties {
    var title: string
    var creator: string
    var subject: string
    var keywords: seq<string>
    var lastmodifiedby: string

    /** `lastmodifiedby` defaults to the creator when not given. */
    constructor (title: string, creator: string, subject: string, keywords: seq<string>,
                 lastmodifiedby: Option<string>)
      ensures this.title == title && this.creator == creator && this.subject == subject
      ensures this.keywords == keywords
      ensures this.lastmodifiedby == if lastmodifiedby.Some? then lastmodifiedby.value else creator
    {
      this.title := title;
      this.creator := creator;
      this.subject := subject;
      this.keywords := keywords;
      this.lastmodifiedby := if lastmodifiedby.Some? then lastmodifiedby.value else creator;
    }

    /** The text of the serialised keywords element: the keywords joined by
        commas, from which splitting on commas recovers them. */
    function KeywordsText(): (r: string)
      reads this
      ensures |keywords| > 0 && (forall i :: 0 <= i < |keywords| ==> ',' !in keywords[i]) ==>
                Split(r, ',') == keywords
    {
      if |keywords| > 0 && (forall i :: 0 <= i < |keywords| ==> ',' !in keywords[i]) then
        SplitJoin(keywords, ',');
        Join(keywords, ',')
      else Join(keywords, ',')
    }
  }

  /** The application properties (docProps/app.xml). */
  class AppProperties {
    var application: string
    var version: string

    constructor (application: string, version: string)
      ensures this.application == application && this.version == version
    {
      this.application := application;
      this.version := version;
    }

    /** The values a fresh document uses. */
    constructor Default()
      ensures application == "Microsoft Word 12.0.0" && version == "12.000"
    {
      application := "Microsoft Word 12.0.0";
      version := "12.000";
    }
  }

  /** The web settings part (word/webSettings.xml); it has no state, and its
      serialisation is `WebSettingsXml`. */
  class WebSettings {
    constructor ()
    {
    }
  }

  /** `WebSettings._xml`: w:webSettings holding w:allowPNG then w:doNotSaveAsSingleFile. */
  function WebSettingsXml(): (r: Node)
    ensures r.tag == Qualified("w", "webSettings")
    ensures |r.children| == 2
    ensures r.children[0].tag == Qualified("w", "allowPNG")
    ensures r.children[1].tag == Qualified("w", "doNotSaveAsSingleFile")
  {
    var web := MakeElement("webSettings", "", One("w"), map[], "").value;
    var web := AppendChild(web, MakeElement("allowPNG", "", One("w"), map[], "").value);
    AppendChild(web, MakeElement("doNotSaveAsSingleFile", "", One("w"), map[], "").value)
  }
}
