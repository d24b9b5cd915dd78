/** The document object (`DocxDocument`): a WordprocessingML tree built
    fresh or read from a template archive; the queries and edits on its
    text; and the entries `save` writes to the output archive, in order.

    Archives are modelled as sequences of named entries. The parser, the
    ZIP format and the file system are not modelled: an entry's content is
    the tree it parses to, or a marker saying that it is empty or not XML,
    and an output entry records its name and where its bytes come from. */
module Document {
  import opened Wrappers
  import opened XmlTree
  import opened Strings
  import opened Namespaces
  import opened Utils
  import opened Meta
  import opened AdvReplace

  /** The archive entries the package reads and writes itself. */
  const DOCUMENT_PART: string := "word/document.xml"
  const RELATIONSHIPS_PART: string := "word/_rels/document.xml.rels"
  const CONTENT_TYPES_PART: string := "[Content_Types].xml"
  const CORE_PART: string := "docProps/core.xml"
  const APP_PART: string := "docProps/app.xml"
  const WEB_SETTINGS_PART: string := "word/webSettings.xml"
  const MEDIA_DIR: string := "word/media/"

  // ---------------------------------------------------------------------
  // Template archives
  // ---------------------------------------------------------------------

  /** What an entry holds, as far as the parser is concerned: a well-formed
      tree, no bytes at all, or bytes that are not XML. */
  datatype Content = Xml(root: Node) | Empty | NotXml

  datatype ArchiveEntry = ArchiveEntry(name: string, content: Content)

  /** A template archive: its entries in directory order. */
  datatype Archive = Archive(entries: seq<ArchiveEntry>)

  /** `namelist()`: every entry name, in directory order. */
  function Names(a: Archive): (r: seq<string>)
    ensures |r| == |a.entries|
    ensures forall i :: 0 <= i < |r| ==> r[i] == a.entries[i].name
  {
    seq(|a.entries|, i requires 0 <= i < |a.entries| => a.entries[i].name)
  }

  /** `read(name)`: the content of the last entry of that name (the
      archive's name table keeps the last one), None when there is none. */
  function ReadEntry(entries: seq<ArchiveEntry>, name: string): (r: Option<Content>)
    ensures r.None? <==> forall i :: 0 <= i < |entries| ==> entries[i].name != name
    ensures r.Some? ==> exists i :: 0 <= i < |entries| && entries[i] == ArchiveEntry(name, r.value)
  {
    if entries == [] then None
    else if entries[|entries| - 1].name == name then Some(entries[|entries| - 1].content)
    else
      ReadEntry(entries[..|entries| - 1], name)
  }

  /** The document part parsed: a missing entry fails the lookup, and an
      empty or malformed one fails the parser. */
  function ReadXml(a: Archive, name: string): (r: Result<Node>)
    ensures ReadEntry(a.entries, name).None? ==> r == Err(KeyError(name))
    ensures ReadEntry(a.entries, name).Some? && ReadEntry(a.entries, name).value.Xml? ==>
              r == Ok(ReadEntry(a.entries, name).value.root)
    ensures ReadEntry(a.entries, name).Some? && !ReadEntry(a.entries, name).value.Xml? ==> r == Err(XmlSyntaxError)
  {
    match ReadEntry(a.entries, name)
    case None => Err(KeyError(name))
    case Some(Xml(root)) => Ok(root)
    case Some(_) => Err(XmlSyntaxError)
  }

  /** A manifest read for the `xml` argument of its class: an empty entry
      counts as no manifest at all (the class then takes its defaults). */
  function ReadManifest(a: Archive, name: string): (r: Result<Option<Node>>)
    ensures ReadEntry(a.entries, name).None? ==> r == Err(KeyError(name))
    ensures ReadEntry(a.entries, name) == Some(Empty) ==> r == Ok(None)
    ensures ReadEntry(a.entries, name) == Some(NotXml) ==> r == Err(XmlSyntaxError)
    ensures ReadEntry(a.entries, name).Some? && ReadEntry(a.entries, name).value.Xml? ==>
              r == Ok(Some(ReadEntry(a.entries, name).value.root))
  {
    match ReadEntry(a.entries, name)
    case None => Err(KeyError(name))
    case Some(Xml(root)) => Ok(Some(root))
    case Some(Empty) => Ok(None)
    case Some(NotXml) => Err(XmlSyntaxError)
  }

  /** The first position from i on whose element has the tag. */
  function FirstWithTag(ns: seq<Node>, tag: string, i: nat): (r: Option<nat>)
    ensures r.Some? ==> i <= r.value < |ns| && ns[r.value].tag == tag
    ensures r.Some? ==> forall j :: i <= j < r.value ==> ns[j].tag != tag
    ensures r.None? ==> forall j :: i <= j < |ns| ==> ns[j].tag != tag
    decreases |ns| - i
  {
    if i >= |ns| then None
    else if ns[i].tag == tag then Some(i)
    else FirstWithTag(ns, tag, i + 1)
  }

  /** `xpath('/w:document/w:body')[0]`: the first w:body child of a
      w:document root, as its position among the root's children. */
  function BodyIndex(root: Node): (r: Option<nat>)
    ensures r.Some? ==> root.tag == W_DOCUMENT && r.value < |root.children| && root.children[r.value].tag == W_BODY
    ensures r.Some? ==> forall j :: 0 <= j < r.value ==> root.children[j].tag != W_BODY
    ensures r.None? <==> root.tag != W_DOCUMENT || forall j :: 0 <= j < |root.children| ==> root.children[j].tag != W_BODY
  {
    if root.tag == W_DOCUMENT then FirstWithTag(root.children, W_BODY, 0) else None
  }

  /** What a template gives the document: its tree, the body's position
      under the root, and the two manifests (None for an empty entry). */
  datatype TemplateParts = TemplateParts(document: Node, bodyIndex: nat,
                                         relationships: Option<Node>, contentTypes: Option<Node>)

  /** `_init_from_file`: the document part, the relationships manifest and
      the content-types manifest are read in that order, and the first that
      fails decides the error; then the body is looked up. */
  function LoadTemplate(a: Archive): (r: Result<TemplateParts>)
    ensures ReadXml(a, DOCUMENT_PART).Err? ==> r == Err(ReadXml(a, DOCUMENT_PART).error)
    ensures ReadXml(a, DOCUMENT_PART).Ok? && ReadManifest(a, RELATIONSHIPS_PART).Err? ==>
              r == Err(ReadManifest(a, RELATIONSHIPS_PART).error)
    ensures ReadXml(a, DOCUMENT_PART).Ok? && ReadManifest(a, RELATIONSHIPS_PART).Ok? &&
            ReadManifest(a, CONTENT_TYPES_PART).Err? ==>
              r == Err(ReadManifest(a, CONTENT_TYPES_PART).error)
    ensures ReadXml(a, DOCUMENT_PART).Ok? && ReadManifest(a, RELATIONSHIPS_PART).Ok? &&
            ReadManifest(a, CONTENT_TYPES_PART).Ok? && BodyIndex(ReadXml(a, DOCUMENT_PART).value).None? ==>
              r == Err(IndexError)
    ensures r.Ok? ==> && ReadXml(a, DOCUMENT_PART) == Ok(r.value.document)
                      && ReadManifest(a, RELATIONSHIPS_PART) == Ok(r.value.relationships)
                      && ReadManifest(a, CONTENT_TYPES_PART) == Ok(r.value.contentTypes)
                      && BodyIndex(r.value.document) == Some(r.value.bodyIndex)
  {
    var doc := ReadXml(a, DOCUMENT_PART);
    if doc.Err? then Err(doc.error)
    else
      var rels := ReadManifest(a, RELATIONSHIPS_PART);
      if rels.Err? then Err(rels.error)
      else
        var types := ReadManifest(a, CONTENT_TYPES_PART);
        if types.Err? then Err(types.error)
        else
          var body := BodyIndex(doc.value);
          if body.None? then Err(IndexError)
          else Ok(TemplateParts(doc.value, body.value, rels.value, types.value))
  }

  // ---------------------------------------------------------------------
  // Search and replace, one leaf at a time
  // ---------------------------------------------------------------------

  /** The position, in document order, of the last element that matches on
      its own (`search`). */
  function LastMatch(ls: seq<Node>, p: string): (r: Option<nat>)
    ensures r.Some? ==> r.value < |ls| && LeafMatches(ls[r.value], p)
    ensures r.Some? ==> forall k :: r.value < k < |ls| ==> !LeafMatches(ls[k], p)
    ensures r.None? ==> forall k :: 0 <= k < |ls| ==> !LeafMatches(ls[k], p)
  {
    if ls == [] then None
    else if LeafMatches(ls[|ls| - 1], p) then Some(|ls| - 1)
    else LastMatch(ls[..|ls| - 1], p)
  }

  /** One more element: it is the last match if it matches, else the last
      match stays where it was. */
  lemma {:induction false} LastMatchStep(ls: seq<Node>, i: nat, p: string)
    requires i < |ls|
    ensures LastMatch(ls[..i + 1], p) == if LeafMatches(ls[i], p) then Some(i) else LastMatch(ls[..i], p)
  {
    assert ls[..i + 1][..i] == ls[..i];
  }

  /** A match split over two leaves is not found: `search` looks at each
      leaf on its own. */
  lemma {:induction false} SearchMissesSplitMatch()
    ensures var ls := [Node(W_T, map[], map[], Some("Hel"), []), Node(W_T, map[], map[], Some("lo"), [])];
            LastMatch(ls, "Hello") == None
  {
    var ls := [Node(W_T, map[], map[], Some("Hel"), []), Node(W_T, map[], map[], Some("lo"), [])];
    forall k: nat ensures !OccursAt("Hel", "Hello", k) && !OccursAt("lo", "Hello", k) {
    }
    assert ls[..1] == [ls[0]];
  }

  /** The tree after `replace` with a string: every matching leaf has every
      occurrence of the pattern substituted, and nothing else changes. */
  function ReplaceTree(n: Node, p: string, r: string): (m: Node)
    ensures m.tag == n.tag && m.nsmap == n.nsmap && m.attrs == n.attrs
    ensures m.text == ReplaceInLeaf(n, p, Text(r))
    ensures |m.children| == |n.children|
    ensures forall i :: 0 <= i < |n.children| ==> m.children[i] == ReplaceTree(n.children[i], p, r)
    decreases n, 1
  {
    Node(n.tag, n.nsmap, n.attrs, ReplaceInLeaf(n, p, Text(r)), ReplaceForest(n.children, p, r))
  }

  function ReplaceForest(ns: seq<Node>, p: string, r: string): (ms: seq<Node>)
    ensures |ms| == |ns|
    ensures forall i :: 0 <= i < |ns| ==> ms[i] == ReplaceTree(ns[i], p, r)
    decreases ns, 0
  {
    if ns == [] then [] else [ReplaceTree(ns[0], p, r)] + ReplaceForest(ns[1..], p, r)
  }

  /** Document order is kept: the k-th element of the new tree is the k-th
      of the old one with its text replaced. */
  lemma {:induction false} IterReplaceTree(n: Node, p: string, r: string)
    ensures |Iter(ReplaceTree(n, p, r))| == |Iter(n)|
    ensures forall k :: 0 <= k < |Iter(n)| ==> Iter(ReplaceTree(n, p, r))[k] == ReplaceTree(Iter(n)[k], p, r)
    decreases n, 1
  {
    var m := ReplaceTree(n, p, r);
    var rest := IterAll(ReplaceForest(n.children, p, r));
    IterAllReplaceForest(n.children, p, r);
    assert Iter(m) == [m] + rest;
    forall k | 0 <= k < |Iter(n)| ensures Iter(m)[k] == ReplaceTree(Iter(n)[k], p, r) {
      if k > 0 {
        assert Iter(m)[k] == rest[k - 1] && Iter(n)[k] == IterAll(n.children)[k - 1];
      }
    }
  }

  lemma {:induction false} IterAllReplaceForest(ns: seq<Node>, p: string, r: string)
    ensures |IterAll(ReplaceForest(ns, p, r))| == |IterAll(ns)|
    ensures forall k :: 0 <= k < |IterAll(ns)| ==> IterAll(ReplaceForest(ns, p, r))[k] == ReplaceTree(IterAll(ns)[k], p, r)
    decreases ns, 0
  {
    if ns != [] {
      IterReplaceTree(ns[0], p, r);
      IterAllReplaceForest(ns[1..], p, r);
      assert ReplaceForest(ns, p, r)[1..] == ReplaceForest(ns[1..], p, r);
    }
  }

  /** `replace` with a string gives every element the text the sliding
      window scan gives it with a window of one leaf. */
  lemma {:induction false} ReplaceIsOneLeafScan(doc: Node, p: string, r: string)
    ensures |Iter(ReplaceTree(doc, p, r))| == |Iter(doc)|
    ensures forall k :: 0 <= k < |Iter(doc)| ==>
              Iter(ReplaceTree(doc, p, r))[k].text == Scan(Iter(doc), p, Text(r), 1).texts[k]
  {
    IterReplaceTree(doc, p, r);
    ScanLeafByLeaf(Iter(doc), p, Text(r));
  }

  /** When `search` finds nothing, `replace` leaves the tree as it was. */
  lemma {:induction false} ReplaceWithoutMatch(n: Node, p: string, r: string)
    requires LastMatch(Iter(n), p) == None
    ensures ReplaceTree(n, p, r) == n
    decreases n, 1
  {
    assert forall k :: 0 <= k < |IterAll(n.children)| ==> IterAll(n.children)[k] == Iter(n)[k + 1];
    ReplaceForestWithoutMatch(n.children, p, r);
  }

  lemma {:induction false} ReplaceForestWithoutMatch(ns: seq<Node>, p: string, r: string)
    requires forall k :: 0 <= k < |IterAll(ns)| ==> !LeafMatches(IterAll(ns)[k], p)
    ensures ReplaceForest(ns, p, r) == ns
    decreases ns, 0
  {
    if ns != [] {
      var head := Iter(ns[0]);
      assert forall k :: 0 <= k < |head| ==> head[k] == IterAll(ns)[k];
      assert forall k :: 0 <= k < |IterAll(ns[1..])| ==> IterAll(ns[1..])[k] == IterAll(ns)[|head| + k];
      ReplaceWithoutMatch(ns[0], p, r);
      ReplaceForestWithoutMatch(ns[1..], p, r);
      assert ns == [ns[0]] + ns[1..];
    }
  }

  // ---------------------------------------------------------------------
  // The text of the document, paragraph by paragraph
  // ---------------------------------------------------------------------

  /** The non-empty texts of the w:t leaves among `ns`, concatenated. */
  function LeafTexts(ns: seq<Node>): string
  {
    if ns == [] then ""
    else
      var n := ns[|ns| - 1];
      LeafTexts(ns[..|ns| - 1]) + (if n.tag == W_T && HasText(n) then n.text.value else "")
  }

  /** The text of each paragraph, leaving out those with no text. */
  function ParagraphTexts(paras: seq<Node>): (r: seq<string>)
    ensures |r| <= |paras|
    ensures forall i :: 0 <= i < |r| ==> r[i] != ""
  {
    if paras == [] then []
    else
      var t := LeafTexts(Iter(paras[|paras| - 1]));
      ParagraphTexts(paras[..|paras| - 1]) + (if t != "" then [t] else [])
  }

  /** `get_text`: the texts of the paragraphs of the whole tree, in document
      order. */
  function DocumentText(doc: Node): seq<string>
  {
    ParagraphTexts(WithTag(Iter(doc), W_P))
  }

  /** One more paragraph adds its text, if it has any. */
  lemma {:induction false} ParagraphTextsStep(ps: seq<Node>, j: nat)
    requires j < |ps|
    ensures ParagraphTexts(ps[..j + 1])
         == ParagraphTexts(ps[..j]) + (if LeafTexts(Iter(ps[j])) != "" then [LeafTexts(Iter(ps[j]))] else [])
  {
    assert ps[..j + 1][..j] == ps[..j];
  }

  /** One more element joins the filtered list when it has the tag. */
  lemma {:induction false} WithTagStep(ls: seq<Node>, i: nat, tag: string)
    requires i < |ls|
    ensures WithTag(ls[..i + 1], tag) == WithTag(ls[..i], tag) + (if ls[i].tag == tag then [ls[i]] else [])
  {
    assert ls[..i + 1] == ls[..i] + [ls[i]];
    WithTagAppend(ls[..i], [ls[i]], tag);
    assert [ls[i]][1..] == [];
  }

  /** Paragraph texts of two runs of paragraphs follow one another. */
  lemma {:induction false} ParagraphTextsAppend(a: seq<Node>, b: seq<Node>)
    ensures ParagraphTexts(a + b) == ParagraphTexts(a) + ParagraphTexts(b)
    decreases |b|
  {
    if b == [] {
      assert a + b == a;
    } else {
      var b' := b[..|b| - 1];
      assert (a + b)[..|a + b| - 1] == a + b';
      assert (a + b)[|a + b| - 1] == b[|b| - 1];
      ParagraphTextsAppend(a, b');
    }
  }

  /** Appending an element to a root that is not itself a paragraph adds the
      element's paragraphs' texts after the others. */
  lemma {:induction false} DocumentTextAppend(doc: Node, e: Node)
    requires doc.tag != W_P
    ensures DocumentText(AppendChild(doc, e)) == DocumentText(doc) + ParagraphTexts(WithTag(Iter(e), W_P))
  {
    var doc' := AppendChild(doc, e);
    IterAllAppend(doc.children, [e]);
    IterAllSingle(e);
    assert Iter(doc') == [doc'] + IterAll(doc.children) + Iter(e);
    WithTagAppend([doc'] + IterAll(doc.children), Iter(e), W_P);
    WithTagAppend([doc'], IterAll(doc.children), W_P);
    WithTagAppend([doc], IterAll(doc.children), W_P);
    assert WithTag([doc'], W_P) == [] == WithTag([doc], W_P);
    ParagraphTextsAppend(WithTag(Iter(doc), W_P), WithTag(Iter(e), W_P));
  }

  // ---------------------------------------------------------------------
  // Adding to the body
  // ---------------------------------------------------------------------

  /** The tree of a fresh document: a w:document root holding one empty w:body. */
  function FreshTree(): (d: Node)
    ensures d.tag == W_DOCUMENT && |d.children| == 1
    ensures d.children[0].tag == W_BODY && d.children[0].children == []
    ensures BodyIndex(d) == Some(0)
  {
    var document := Node(Qualified("w", "document"), map[], map[], None, []);
    AppendChild(document, Node(Qualified("w", "body"), map[], map[], None, []))
  }

  /** The fresh tree is what the element factory builds for "document" and
      "body" under the default prefix. */
  lemma {:induction false} FreshTreeIsMade()
    ensures MakeElement("document", "", One("w"), map[], "").Ok?
    ensures MakeElement("body", "", One("w"), map[], "").Ok?
    ensures FreshTree() == AppendChild(MakeElement("document", "", One("w"), map[], "").value,
                                       MakeElement("body", "", One("w"), map[], "").value)
  {
    MakePrefixedElement("document");
    MakePrefixedElement("body");
  }

  /** An element under the default prefix, with no text and no attributes. */
  lemma {:induction false} MakePrefixedElement(tagname: string)
    ensures MakeElement(tagname, "", One("w"), map[], "") == Ok(Node(Qualified("w", tagname), map[], map[], None, []))
  {
  }

  /** `add` without a position: the tree with `e` appended to the children of
      the body, which sits at `bodyIndex` under the root. */
  function AddToBody(doc: Node, bodyIndex: nat, e: Node): (r: Node)
    requires bodyIndex < |doc.children|
    ensures r.(children := doc.children) == doc
    ensures |r.children| == |doc.children|
    ensures forall i :: 0 <= i < |doc.children| && i != bodyIndex ==> r.children[i] == doc.children[i]
    ensures r.children[bodyIndex].(children := doc.children[bodyIndex].children) == doc.children[bodyIndex]
    ensures r.children[bodyIndex].children == doc.children[bodyIndex].children + [e]
  {
    doc.(children := doc.children[bodyIndex := AppendChild(doc.children[bodyIndex], e)])
  }

  /** Adding to a body that is the root's last child adds the element's
      paragraph texts after all the others. */
  lemma {:induction false} DocumentTextAdd(doc: Node, bodyIndex: nat, e: Node)
    requires bodyIndex == |doc.children| - 1
    requires doc.tag != W_P && doc.children[bodyIndex].tag != W_P
    ensures DocumentText(AddToBody(doc, bodyIndex, e)) == DocumentText(doc) + ParagraphTexts(WithTag(Iter(e), W_P))
  {
    var doc' := AddToBody(doc, bodyIndex, e);
    var body := doc.children[bodyIndex];
    var body' := doc'.children[bodyIndex];
    var pre := IterAll(doc.children[..bodyIndex]);
    var inner := IterAll(body.children);
    var wp := WithTag(Iter(doc), W_P);
    var wp' := WithTag(Iter(doc'), W_P);
    assert wp == WithTag(pre, W_P) + WithTag(inner, W_P) by {
      IterLastChild(doc);
      WithTagSkipsTwo(doc, pre, body, inner, W_P);
    }
    assert wp' == WithTag(pre, W_P) + WithTag(inner, W_P) + WithTag(Iter(e), W_P) by {
      assert doc'.children[..bodyIndex] == doc.children[..bodyIndex];
      IterLastChild(doc');
      assert IterAll(body'.children) == inner + Iter(e) by {
        IterAllAppend(body.children, [e]);
        IterAllSingle(e);
      }
      WithTagSkipsTwo(doc', pre, body', inner + Iter(e), W_P);
      WithTagAppend(inner, Iter(e), W_P);
    }
    ParagraphTextsAppend(wp, WithTag(Iter(e), W_P));
  }

  /** The elements of a tree whose last child is `b`: the root, the
      subtrees of the other children, then `b` and its descendants. */
  lemma {:induction false} IterLastChild(n: Node)
    requires n.children != []
    ensures var b := n.children[|n.children| - 1];
            Iter(n) == [n] + IterAll(n.children[..|n.children| - 1]) + ([b] + IterAll(b.children))
  {
    var before := n.children[..|n.children| - 1];
    var b := n.children[|n.children| - 1];
    assert n.children == before + [b];
    IterAllAppend(before, [b]);
    IterAllSingle(b);
  }

  /** Two elements without the tag drop out of the filtered list. */
  lemma {:induction false} WithTagSkipsTwo(x: Node, a: seq<Node>, y: Node, b: seq<Node>, tag: string)
    requires x.tag != tag && y.tag != tag
    ensures WithTag([x] + a + ([y] + b), tag) == WithTag(a, tag) + WithTag(b, tag)
  {
    WithTagAppend([x] + a, [y] + b, tag);
    WithTagAppend([x], a, tag);
    WithTagAppend([y], b, tag);
    assert [x][1..] == [] && [y][1..] == [];
  }

  /** The text of one paragraph: its w:t leaves' texts, in document order. */
  method ParagraphText(para: Node) returns (t: string)
    ensures t == LeafTexts(Iter(para))
  {
    var leaves := Iter(para);
    t := "";
    var i := 0;
    while i < |leaves|
      invariant 0 <= i <= |leaves|
      invariant t == LeafTexts(leaves[..i])
    {
      assert leaves[..i + 1][..i] == leaves[..i];
      if leaves[i].tag == W_T && HasText(leaves[i]) {
        t := t + leaves[i].text.value;
      }
      i := i + 1;
    }
    assert leaves[..i] == leaves;
  }

  /** Carries out steps on an output archive until the first that fails. */
  method RunInto(zip: ZipWriter, steps: seq<Step>) returns (error: Option<Error>)
    modifies zip
    ensures zip.entries == old(zip.entries) + RunSteps(steps).writes
    ensures error == RunSteps(steps).error
  {
    var i := 0;
    while i < |steps|
      invariant 0 <= i <= |steps|
      invariant RunSteps(steps[..i]).error.None?
      invariant zip.entries == old(zip.entries) + RunSteps(steps[..i]).writes
    {
      assert steps[..i + 1][..i] == steps[..i];
      match steps[i].source
      case Err(e) =>
        RunStepsAppend(steps[..i + 1], steps[i + 1..]);
        assert steps[..i + 1] + steps[i + 1..] == steps;
        return Some(e);
      case Ok(source) =>
        zip.WriteStr(steps[i].name, source);
      i := i + 1;
    }
    assert steps[..i] == steps;
    return None;
  }

  // ---------------------------------------------------------------------
  // The document object
  // ---------------------------------------------------------------------

  /** `DocxDocument(template_file, template_dir)`: with a template file
      name that names a file (`archive`), the document is loaded from that
      archive and fails as the load fails; otherwise a fresh document is
      built. */
  method Open(templateFile: string, templateDir: string, archive: Option<Archive>) returns (r: Result<DocxDocument>)
    ensures r.Ok? ==> fresh(r.value) && r.value.Valid() && r.value.zipFile == null && r.value.wordRelationships.toCopy == []
    ensures templateFile == "" || archive.None? ==>
              && r.Ok? && r.value.templateFile.None? && r.value.templateDir == templateDir
              && r.value.document == FreshTree() && r.value.propertiesSet
              && r.value.wordRelationships.relationshiplist == DefaultRelationships()
              && r.value.contentTypes.types == DefaultContentTypes()
    ensures templateFile != "" && archive.Some? ==>
              match LoadTemplate(archive.value)
              case Err(e) => r == Err(e)
              case Ok(parts) =>
                && r.Ok? && r.value.templateFile == Some(templateFile) && r.value.templateDir == templateDir
                && r.value.template == archive && !r.value.propertiesSet
                && r.value.document == parts.document && r.value.bodyIndex == parts.bodyIndex
                && r.value.wordRelationships.relationshiplist
                   == (if parts.relationships.Some? then LoadRelationships(parts.relationships.value) else DefaultRelationships())
                && r.value.contentTypes.types
                   == (if parts.contentTypes.Some? then LoadContentTypes(parts.contentTypes.value.children) else DefaultContentTypes())
  {
    if templateFile != "" && archive.Some? {
      var loaded := LoadTemplate(archive.value);
      if loaded.Err? {
        return Err(loaded.error);
      }
      var parts := loaded.value;
      var relationships := new WordRelationships(parts.relationships);
      var types := new ContentTypes(parts.contentTypes);
      var d := new DocxDocument.FromTemplate(templateFile, templateDir, archive.value, parts, relationships, types);
      r := Ok(d);
    } else {
      var d := new DocxDocument.Fresh(templateDir);
      r := Ok(d);
    }
  }

  /** `DocxDocument`: the tree being edited, where its body is, the
      manifests, and where it came from. */
  class DocxDocument {
    const templateFile: Option<string>
    const templateDir: string
    const template: Option<Archive>
    var document: Node
    var bodyIndex: nat
    /** Only a fresh document sets the property attributes at all. */
    const propertiesSet: bool
    var coreProperties: CoreProperties?
    var appProperties: AppProperties?
    var webSettings: WebSettings?
    const wordRelationships: WordRelationships
    const contentTypes: ContentTypes
    var zipFile: ZipWriter?

    /** The body is a w:body child of the w:document root; the template and
        the property attributes belong to the two ways of building. */
    predicate Valid()
      reads this
    {
      && document.tag == W_DOCUMENT
      && bodyIndex < |document.children|
      && document.children[bodyIndex].tag == W_BODY
      && (templateFile.Some? <==> template.Some?)
      && (propertiesSet <==> templateFile.None?)
      && (propertiesSet ==> appProperties != null && webSettings != null)
    }

    /** Built without a template file: a w:document root with one empty
        w:body, default manifests and application properties, no core
        properties. */
    constructor Fresh(templateDir: string)
      ensures Valid()
      ensures this.templateDir == templateDir && templateFile.None? && template.None?
      ensures document == FreshTree() && bodyIndex == 0
      ensures propertiesSet && coreProperties == null
      ensures appProperties.application == "Microsoft Word 12.0.0" && appProperties.version == "12.000"
      ensures wordRelationships.relationshiplist == DefaultRelationships() && wordRelationships.toCopy == []
      ensures contentTypes.types == DefaultContentTypes()
      ensures zipFile == null
    {
      this.templateDir := templateDir;
      templateFile := None;
      template := None;
      document := FreshTree();
      bodyIndex := 0;
      propertiesSet := true;
      coreProperties := null;
      appProperties := new AppProperties.Default();
      webSettings := new WebSettings();
      wordRelationships := new WordRelationships(None);
      contentTypes := new ContentTypes(None);
      zipFile := null;
    }

    /** `_init_from_file`, once the template archive `a` has given `parts`
        and the two manifests have been loaded into `relationships` and
        `types`: the tree, the body and both manifests come from the
        template, and no property object is made. */
    constructor FromTemplate(templateFile: string, templateDir: string, a: Archive, parts: TemplateParts,
                             relationships: WordRelationships, types: ContentTypes)
      requires templateFile != "" && BodyIndex(parts.document) == Some(parts.bodyIndex)
      ensures Valid()
      ensures this.templateFile == Some(templateFile) && this.templateDir == templateDir && template == Some(a)
      ensures document == parts.document && bodyIndex == parts.bodyIndex
      ensures !propertiesSet && coreProperties == null
      ensures wordRelationships == relationships && contentTypes == types
      ensures zipFile == null
    {
      this.templateFile := Some(templateFile);
      this.templateDir := templateDir;
      template := Some(a);
      document := parts.document;
      bodyIndex := parts.bodyIndex;
      propertiesSet := false;
      coreProperties := null;
      appProperties := null;
      webSettings := null;
      wordRelationships := relationships;
      contentTypes := types;
      zipFile := null;
    }

    /** `search`: the last w:t element whose own non-empty text contains the
        pattern, or None (the source's False). */
    method Search(p: string) returns (r: Option<Node>)
      ensures LastMatch(Iter(document), p).None? ==> r.None?
      ensures LastMatch(Iter(document), p).Some? ==> r == Some(Iter(document)[LastMatch(Iter(document), p).value])
    {
      var elements := Iter(document);
      r := None;
      var i := 0;
      while i < |elements|
        invariant 0 <= i <= |elements|
        invariant LastMatch(elements[..i], p).None? ==> r.None?
        invariant LastMatch(elements[..i], p).Some? ==> r == Some(elements[LastMatch(elements[..i], p).value])
      {
        LastMatchStep(elements, i, p);
        if LeafMatches(elements[i], p) {
          r := Some(elements[i]);
        }
        i := i + 1;
      }
      assert elements[..i] == elements;
    }

    /** `replace` with a string: every matching leaf has each occurrence of
        the pattern replaced; the body stays where it was. */
    method Replace(p: string, r: string)
      requires Valid()
      modifies this`document
      ensures document == ReplaceTree(old(document), p, r)
      ensures Valid()
    {
      document := ReplaceTree(document, p, r);
    }

    /** `add`: with a position nothing happens; otherwise `e` becomes the
        body's last child. */
    method Add(e: Node, position: bool)
      requires Valid()
      modifies this`document
      ensures document == if position then old(document) else AddToBody(old(document), bodyIndex, e)
      ensures Valid()
    {
      if !position {
        document := AddToBody(document, bodyIndex, e);
      }
    }

    /** `append`: `e` becomes the root's last child, after the body. */
    method Append(e: Node)
      requires Valid()
      modifies this`document
      ensures document == AppendChild(old(document), e)
      ensures Valid()
    {
      document := AppendChild(document, e);
    }

    /** `get_text`: the paragraphs of the whole tree in document order, then
        the non-empty text of each. */
    method GetText() returns (texts: seq<string>)
      ensures texts == DocumentText(document)
    {
      var elements := Iter(document);
      var paras: seq<Node> := [];
      var i := 0;
      while i < |elements|
        invariant 0 <= i <= |elements|
        invariant paras == WithTag(elements[..i], W_P)
      {
        WithTagStep(elements, i, W_P);
        if elements[i].tag == W_P {
          paras := paras + [elements[i]];
        }
        i := i + 1;
      }
      assert elements[..i] == elements;
      texts := [];
      var j := 0;
      while j < |paras|
        invariant 0 <= j <= |paras|
        invariant texts == ParagraphTexts(paras[..j])
      {
        ParagraphTextsStep(paras, j);
        var t := ParagraphText(paras[j]);
        if |t| != 0 {
          texts := texts + [t];
        }
        j := j + 1;
      }
      assert paras[..j] == paras;
    }

    /** The state a save reads. */
    function State(): Package
      reads this`coreProperties, this`document
      reads wordRelationships`relationshiplist, wordRelationships`toCopy, contentTypes`types
    {
      Package(templateFile, templateDir, if template.Some? then Names(template.value) else [],
              propertiesSet, coreProperties != null, contentTypes.types,
              wordRelationships.relationshiplist, wordRelationships.toCopy, document)
    }

    /** `_write_xml_files`, one generated part at a time, stopping at the
        first that fails. */
    method WriteXmlFiles(ct: Result<Node>, rels: Result<Node>) returns (error: Option<Error>)
      requires zipFile != null
      modifies zipFile
      ensures var s := RunSteps(XmlSteps(State(), ct, rels));
              zipFile.entries == old(zipFile.entries) + s.writes && error == s.error
    {
      error := RunInto(zipFile, XmlSteps(State(), ct, rels));
    }

    /** `_copy_template_dir`: each walked file whose bare name is not in
        `ignored` (the package's ignore list, which `Save` passes), under its
        path relative to the template directory. */
    method CopyTemplateDir(files: seq<DirFile>, ignored: seq<string>)
      requires zipFile != null
      modifies zipFile
      ensures zipFile.entries == old(zipFile.entries) + DirWrites(files, ignored)
    {
      var i := 0;
      while i < |files|
        invariant 0 <= i <= |files|
        invariant zipFile.entries == old(zipFile.entries) + DirWrites(files[..i], ignored)
      {
        assert files[..i + 1][..i] == files[..i];
        var f := files[i];
        assert DirWrites(files[..i + 1], ignored) ==
               DirWrites(files[..i], ignored) +
               if f.filename in ignored then [] else [Write(EntryPath(f), TemplateFile(EntryPath(f)))];
        if f.filename !in ignored {
          zipFile.WriteStr(EntryPath(f), TemplateFile(EntryPath(f)));
        }
        i := i + 1;
      }
      assert files[..i] == files;
    }

    /** `_copy_template_file`: each template entry but the rewritten parts,
        under its own name. */
    method CopyTemplateFile()
      requires zipFile != null && template.Some?
      modifies zipFile
      ensures zipFile.entries == old(zipFile.entries) + TemplateCopyWrites(Names(template.value))
    {
      var names := Names(template.value);
      var i := 0;
      while i < |names|
        invariant 0 <= i <= |names|
        invariant zipFile.entries == old(zipFile.entries) + TemplateCopyWrites(names[..i])
      {
        assert names[..i + 1][..i] == names[..i];
        if Basename(names[i]) !in REWRITTEN_BASENAMES {
          zipFile.WriteStr(names[i], TemplateEntry(names[i]));
        }
        i := i + 1;
      }
      assert names[..i] == names;
    }

    /** `_copy_media_files`: each queued image under word/media/. */
    method CopyMediaFiles()
      requires zipFile != null
      modifies zipFile
      ensures zipFile.entries == old(zipFile.entries) + MediaWrites(wordRelationships.toCopy)
    {
      var queue := wordRelationships.toCopy;
      var i := 0;
      while i < |queue|
        invariant 0 <= i <= |queue|
        invariant zipFile.entries == old(zipFile.entries) + MediaWrites(queue[..i])
      {
        assert queue[..i + 1][..i] == queue[..i];
        zipFile.WriteStr(MEDIA_DIR + queue[i].name, MediaFile(queue[i].path));
        i := i + 1;
      }
      assert queue[..i] == queue;
    }

    /** The template directory branch of `save`. */
    method WriteDirBranch(ct: Result<Node>, rels: Result<Node>, files: seq<DirFile>, ignored: seq<string>) returns (error: Option<Error>)
      requires zipFile != null
      modifies zipFile
      ensures zipFile.entries == old(zipFile.entries) + DirOutcome(State(), ct, rels, files, ignored).writes
      ensures error == DirOutcome(State(), ct, rels, files, ignored).error
    {
      error := None;
      if templateDir != "" {
        error := WriteXmlFiles(ct, rels);
        if error.None? {
          CopyTemplateDir(files, ignored);
        }
      }
    }

    /** The template archive branch of `save`: the copied entries, then the
        relationships and content-type manifests. */
    method WriteFileBranch(ct: Result<Node>, rels: Result<Node>) returns (error: Option<Error>)
      requires Valid() && zipFile != null
      modifies zipFile
      ensures zipFile.entries == old(zipFile.entries) + FileOutcome(State(), ct, rels).writes
      ensures error == FileOutcome(State(), ct, rels).error
    {
      error := None;
      if templateFile.Some? {
        CopyTemplateFile();
        error := RunInto(zipFile, ManifestSteps(ct, rels));
      }
    }

    /** The end of every `save` that got that far: the queued media, then
        the document part. */
    method WriteTail()
      requires zipFile != null
      modifies zipFile
      ensures zipFile.entries == old(zipFile.entries) + MediaWrites(State().toCopy) + [DocumentWrite(State())]
    {
      CopyMediaFiles();
      zipFile.WriteStr(DOCUMENT_PART, Tree(document));
    }

    /** `save` once the two manifests are serialised: a new archive, then
        the directory branch, the archive branch, the media and the
        document part, stopping at the first exception. */
    method WriteArchive(filename: string, ct: Result<Node>, rels: Result<Node>, files: seq<DirFile>, ignored: seq<string>)
      returns (error: Option<Error>)
      requires Valid()
      modifies this`zipFile
      ensures fresh(zipFile) && zipFile.filename == filename
      ensures zipFile.entries == Plan(State(), ct, rels, files, ignored).writes
      ensures error == Plan(State(), ct, rels, files, ignored).error
    {
      ghost var pkg := State();
      ghost var d := DirOutcome(pkg, ct, rels, files, ignored);
      ghost var f := FileOutcome(pkg, ct, rels);
      ghost var plan := Plan(pkg, ct, rels, files, ignored);
      PlanByBranches(pkg, ct, rels, files, ignored);
      zipFile := new ZipWriter(filename);
      assert State() == pkg;
      error := WriteDirBranch(ct, rels, files, ignored);
      assert State() == pkg;
      assert zipFile.entries == d.writes && error == d.error;
      if error.Some? {
        assert plan == d;
        return;
      }
      error := WriteFileBranch(ct, rels);
      assert State() == pkg;
      assert zipFile.entries == d.writes + f.writes && error == f.error;
      if error.Some? {
        assert plan == Saved(d.writes + f.writes, f.error);
        return;
      }
      WriteTail();
      assert State() == pkg;
    }

    /** `save`: the content-type manifest is serialised in the order
        `ctOrder` of the registry, the relationships manifest in table
        order; `files` is the walk of the template directory. */
    method Save(filename: string, ctOrder: seq<Option<string>>, files: seq<DirFile>) returns (error: Option<Error>)
      requires Valid() && Enumerates(ctOrder, contentTypes.types)
      modifies this`zipFile
      ensures fresh(zipFile) && zipFile.filename == filename
      ensures zipFile.entries == SavePlan(State(), ctOrder, files).writes
      ensures error == SavePlan(State(), ctOrder, files).error
    {
      var ct := ContentTypesXml(contentTypes.types, ctOrder);
      var rels := wordRelationships.Xml();
      error := WriteArchive(filename, ct, rels, files, FILES_TO_IGNORE);
    }
  }

  // ---------------------------------------------------------------------
  // Output archives
  // ---------------------------------------------------------------------

  /** Where the bytes of an output entry come from. */
  datatype Source =
    | CoreXml                      // the core properties, built as text
    | AppXml                       // the application properties, built as text
    | WebSettingsTree              // the web settings tree, `WebSettingsXml()`
    | Tree(root: Node)             // a serialised element tree
    | TemplateEntry(name: string)  // an entry of the template archive, copied as is
    | TemplateFile(path: string)   // a file under the template directory
    | MediaFile(path: string)      // a file queued by `picture`

  /** One entry written to the output archive. */
  datatype Write = Write(name: string, source: Source)

  /** The output archive being written (`zipfile.ZipFile` in write mode). */
  class ZipWriter {
    const filename: string
    var entries: seq<Write>

    constructor (filename: string)
      ensures this.filename == filename && entries == []
    {
      this.filename := filename;
      entries := [];
    }

    /** `writestr` and `write`: one more entry, after the others. */
    method WriteStr(name: string, source: Source)
      modifies this
      ensures entries == old(entries) + [Write(name, source)]
    {
      entries := entries + [Write(name, source)];
    }
  }

  // ---------------------------------------------------------------------
  // The save plan
  // ---------------------------------------------------------------------

  /** One write `save` attempts, or the exception raised while building it. */
  datatype Step = Step(name: string, source: Result<Source>)

  /** What a save leaves behind: the entries written, and the exception that
      stopped it, if any. */
  datatype Saved = Saved(writes: seq<Write>, error: Option<Error>)

  /** The steps carried out in order; the first failure ends the save and
      nothing after it is written. */
  function RunSteps(steps: seq<Step>): (r: Saved)
    ensures |r.writes| <= |steps|
    ensures r.error.None? <==> forall i :: 0 <= i < |steps| ==> steps[i].source.Ok?
  {
    if steps == [] then Saved([], None)
    else
      var before := RunSteps(steps[..|steps| - 1]);
      var last := steps[|steps| - 1];
      if before.error.Some? then before
      else if last.source.Err? then Saved(before.writes, Some(last.source.error))
      else Saved(before.writes + [Write(last.name, last.source.value)], None)
  }

  /** Running two lists of steps is running the first, then, unless it
      failed, the second. */
  lemma {:induction false} RunStepsAppend(a: seq<Step>, b: seq<Step>)
    ensures RunSteps(a + b) ==
              if RunSteps(a).error.Some? then RunSteps(a)
              else Saved(RunSteps(a).writes + RunSteps(b).writes, RunSteps(b).error)
    decreases |b|
  {
    if b == [] {
      assert a + b == a;
    } else {
      var b' := b[..|b| - 1];
      assert (a + b)[..|a + b| - 1] == a + b';
      assert (a + b)[|a + b| - 1] == b[|b| - 1];
      RunStepsAppend(a, b');
    }
  }

  /** Writes that cannot fail, as steps. */
  function Oks(ws: seq<Write>): (r: seq<Step>)
    ensures |r| == |ws|
    ensures forall i :: 0 <= i < |ws| ==> r[i] == Step(ws[i].name, Ok(ws[i].source))
  {
    if ws == [] then [] else Oks(ws[..|ws| - 1]) + [Step(ws[|ws| - 1].name, Ok(ws[|ws| - 1].source))]
  }

  /** Steps that cannot fail write exactly their entries. */
  lemma {:induction false} RunOks(ws: seq<Write>)
    ensures RunSteps(Oks(ws)) == Saved(ws, None)
  {
    if ws != [] {
      var ws' := ws[..|ws| - 1];
      assert Oks(ws)[..|ws| - 1] == Oks(ws');
      RunOks(ws');
    }
  }

  /** A serialised tree, or the exception serialising raised. */
  function TreeSource(r: Result<Node>): (s: Result<Source>)
    ensures r.Ok? ==> s == Ok(Tree(r.value))
    ensures r.Err? ==> s == Err(r.error)
  {
    if r.Ok? then Ok(Tree(r.value)) else Err(r.error)
  }

  /** The document state a save reads. */
  datatype Package = Package(
    templateFile: Option<string>,   // set only for a document built from a template archive
    templateDir: string,            // "" when no template directory was given
    templateNames: seq<string>,     // the names in the template archive
    propertiesSet: bool,            // whether the property attributes exist at all
    hasCore: bool,                  // whether `core_properties` is not None
    types: TypeMap,
    rels: seq<Relationship>,
    toCopy: seq<MediaCopy>,
    document: Node)

  /** `_write_xml_files`: the five generated parts in the order of the dict
      display, given the two serialised manifests. A document built from a
      template never set the property attributes, so building the dict fails
      on the first of them; the None that a fresh document holds for its
      core properties fails on `_xml`. */
  function XmlSteps(pkg: Package, contentTypes: Result<Node>, relationships: Result<Node>): (r: seq<Step>)
    ensures !pkg.propertiesSet ==> r == [Step(CORE_PART, Err(AttributeError("core_properties")))]
    ensures pkg.propertiesSet ==>
              && |r| == 5 && r[0].name == CORE_PART && r[1].name == APP_PART
              && r[2].name == CONTENT_TYPES_PART && r[3].name == WEB_SETTINGS_PART && r[4].name == RELATIONSHIPS_PART
    ensures pkg.propertiesSet ==> (r[0].source.Ok? <==> pkg.hasCore)
    ensures pkg.propertiesSet && !pkg.hasCore ==> r[0].source == Err(AttributeError("_xml"))
    ensures pkg.propertiesSet ==> r[2].source == TreeSource(contentTypes) && r[4].source == TreeSource(relationships)
  {
    if !pkg.propertiesSet then [Step(CORE_PART, Err(AttributeError("core_properties")))]
    else
      [ Step(CORE_PART, if pkg.hasCore then Ok(CoreXml) else Err(AttributeError("_xml"))),
        Step(APP_PART, Ok(AppXml)),
        Step(CONTENT_TYPES_PART, TreeSource(contentTypes)),
        Step(WEB_SETTINGS_PART, Ok(WebSettingsTree)),
        Step(RELATIONSHIPS_PART, TreeSource(relationships)) ]
  }

  /** A file met while walking the template directory: its directory,
      relative to the template directory ("" for the top), and its name. */
  datatype DirFile = DirFile(dir: string, filename: string)

  /** The entry name of a walked file: its path relative to the template directory. */
  function EntryPath(f: DirFile): string
  {
    if f.dir == "" then f.filename else f.dir + "/" + f.filename
  }

  /** `_copy_template_dir`: every walked file whose bare name is not
      ignored, in walk order, under its relative path. */
  function DirWrites(files: seq<DirFile>, ignored: seq<string>): (r: seq<Write>)
    ensures |r| <= |files|
  {
    if files == [] then []
    else
      var f := files[|files| - 1];
      DirWrites(files[..|files| - 1], ignored) +
        if f.filename in ignored then [] else [Write(EntryPath(f), TemplateFile(EntryPath(f)))]
  }

  /** The directory copy writes exactly the walked files whose names are not
      ignored, each from its own path. */
  lemma {:induction false} DirWritesMembers(files: seq<DirFile>, ignored: seq<string>)
    ensures forall w :: w in DirWrites(files, ignored) ==>
              exists f :: f in files && f.filename !in ignored && w == Write(EntryPath(f), TemplateFile(EntryPath(f)))
    ensures forall f :: f in files && f.filename !in ignored ==>
              Write(EntryPath(f), TemplateFile(EntryPath(f))) in DirWrites(files, ignored)
  {
    if files != [] {
      var init := files[..|files| - 1];
      var last := files[|files| - 1];
      DirWritesMembers(init, ignored);
      assert files == init + [last];
      forall f | f in files && f.filename !in ignored
        ensures Write(EntryPath(f), TemplateFile(EntryPath(f))) in DirWrites(files, ignored)
      {
        if f != last {
          assert f in init;
        }
      }
    }
  }

  /** The bare names a template directory copy skips. The package's own list
      holds the relationships part as a path, which no bare name equals; this
      one holds its bare name, which is evidently what was meant. */
  const IGNORED_FILENAMES: seq<string> := [
    "Thumbs.db", ".DS_STORE", "document.xml", "core.xml", "app.xml", "[Content_Types].xml",
    "webSettings.xml", "document.xml.rels"
  ]

  /** The base names a template archive copy skips: the parts rewritten after it. */
  const REWRITTEN_BASENAMES: seq<string> := ["document.xml", "document.xml.rels", "[Content_Types].xml"]

  /** `_copy_template_file`: every template entry whose base name is not
      rewritten, in archive order, under its own name. */
  function TemplateCopyWrites(names: seq<string>): (r: seq<Write>)
    ensures |r| <= |names|
  {
    if names == [] then []
    else
      var n := names[|names| - 1];
      TemplateCopyWrites(names[..|names| - 1]) +
        if Basename(n) in REWRITTEN_BASENAMES then [] else [Write(n, TemplateEntry(n))]
  }

  /** The archive copy writes exactly the entries whose base names are not
      rewritten, each from the entry of the same name. */
  lemma {:induction false} TemplateCopyMembers(names: seq<string>)
    ensures forall w :: w in TemplateCopyWrites(names) ==>
              w.name in names && Basename(w.name) !in REWRITTEN_BASENAMES && w.source == TemplateEntry(w.name)
    ensures forall n :: n in names && Basename(n) !in REWRITTEN_BASENAMES ==>
              Write(n, TemplateEntry(n)) in TemplateCopyWrites(names)
  {
    if names != [] {
      var init := names[..|names| - 1];
      var last := names[|names| - 1];
      TemplateCopyMembers(init);
      assert names == init + [last];
      forall n | n in names && Basename(n) !in REWRITTEN_BASENAMES
        ensures Write(n, TemplateEntry(n)) in TemplateCopyWrites(names)
      {
        if n != last {
          assert n in init;
        }
      }
    }
  }

  /** The two manifests written after a template archive copy, given
      their serialisations. */
  function ManifestSteps(contentTypes: Result<Node>, relationships: Result<Node>): (r: seq<Step>)
    ensures |r| == 2 && r[0].name == RELATIONSHIPS_PART && r[1].name == CONTENT_TYPES_PART
    ensures r[0].source == TreeSource(relationships) && r[1].source == TreeSource(contentTypes)
  {
    [Step(RELATIONSHIPS_PART, TreeSource(relationships)), Step(CONTENT_TYPES_PART, TreeSource(contentTypes))]
  }

  /** `_copy_media_files`: each queued image, in queue order, under word/media/. */
  function MediaWrites(toCopy: seq<MediaCopy>): (r: seq<Write>)
    ensures |r| == |toCopy|
    ensures forall i :: 0 <= i < |toCopy| ==>
              r[i].name == MEDIA_DIR + toCopy[i].name && r[i].source == MediaFile(toCopy[i].path)
  {
    if toCopy == [] then []
    else
      var c := toCopy[|toCopy| - 1];
      MediaWrites(toCopy[..|toCopy| - 1]) + [Write(MEDIA_DIR + c.name, MediaFile(c.path))]
  }

  /** The write of the document part that ends every save. */
  function DocumentWrite(pkg: Package): Write
  {
    Write(DOCUMENT_PART, Tree(pkg.document))
  }

  /** The template directory branch of `save`. */
  function DirSteps(pkg: Package, contentTypes: Result<Node>, relationships: Result<Node>, files: seq<DirFile>, ignored: seq<string>): seq<Step>
  {
    if pkg.templateDir != "" then XmlSteps(pkg, contentTypes, relationships) + Oks(DirWrites(files, ignored)) else []
  }

  /** The template archive branch of `save`. */
  function FileSteps(pkg: Package, contentTypes: Result<Node>, relationships: Result<Node>): seq<Step>
  {
    if pkg.templateFile.Some? then Oks(TemplateCopyWrites(pkg.templateNames)) + ManifestSteps(contentTypes, relationships) else []
  }

  /** The media files and the document part, which every save writes last. */
  function TailSteps(pkg: Package): seq<Step>
  {
    Oks(MediaWrites(pkg.toCopy) + [DocumentWrite(pkg)])
  }

  /** `save` given the two serialised manifests and the ignore list: the
      directory branch, the archive branch, then the media and the document
      part. */
  function Plan(pkg: Package, contentTypes: Result<Node>, relationships: Result<Node>, files: seq<DirFile>, ignored: seq<string>): Saved
  {
    RunSteps(DirSteps(pkg, contentTypes, relationships, files, ignored) + FileSteps(pkg, contentTypes, relationships) + TailSteps(pkg))
  }

  /** `save`, with the content types serialised in the order `ctOrder` and
      the package's own ignore list `FILES_TO_IGNORE`. */
  function SavePlan(pkg: Package, ctOrder: seq<Option<string>>, files: seq<DirFile>): Saved
    requires Enumerates(ctOrder, pkg.types)
  {
    Plan(pkg, ContentTypesXml(pkg.types, ctOrder), RelationshipsXml(pkg.rels), files, FILES_TO_IGNORE)
  }

  /** `save` as evidently intended: the same, with the corrected ignore
      list `IGNORED_FILENAMES`. */
  function SavePlanCorrected(pkg: Package, ctOrder: seq<Option<string>>, files: seq<DirFile>): Saved
    requires Enumerates(ctOrder, pkg.types)
  {
    Plan(pkg, ContentTypesXml(pkg.types, ctOrder), RelationshipsXml(pkg.rels), files, IGNORED_FILENAMES)
  }

  /** What the directory branch leaves behind: nothing without a template
      directory; otherwise the generated parts up to the first that fails,
      and then, if none failed, the copied files. */
  function DirOutcome(pkg: Package, ct: Result<Node>, rels: Result<Node>, files: seq<DirFile>, ignored: seq<string>): Saved
  {
    if pkg.templateDir == "" then Saved([], None)
    else
      var x := RunSteps(XmlSteps(pkg, ct, rels));
      if x.error.Some? then x else Saved(x.writes + DirWrites(files, ignored), None)
  }

  /** What the archive branch leaves behind: nothing without a template
      archive; otherwise the copied entries, then the two manifests up to
      the first that fails. */
  function FileOutcome(pkg: Package, ct: Result<Node>, rels: Result<Node>): Saved
  {
    if pkg.templateFile.None? then Saved([], None)
    else
      var m := RunSteps(ManifestSteps(ct, rels));
      Saved(TemplateCopyWrites(pkg.templateNames) + m.writes, m.error)
  }

  /** Running the directory branch's steps gives its outcome. */
  lemma {:induction false} DirStepsRun(pkg: Package, ct: Result<Node>, rels: Result<Node>, files: seq<DirFile>, ignored: seq<string>)
    ensures RunSteps(DirSteps(pkg, ct, rels, files, ignored)) == DirOutcome(pkg, ct, rels, files, ignored)
  {
    if pkg.templateDir != "" {
      var copies := DirWrites(files, ignored);
      RunStepsAppend(XmlSteps(pkg, ct, rels), Oks(copies));
      RunOks(copies);
    }
  }

  /** Running the archive branch's steps gives its outcome. */
  lemma {:induction false} FileStepsRun(pkg: Package, ct: Result<Node>, rels: Result<Node>)
    ensures RunSteps(FileSteps(pkg, ct, rels)) == FileOutcome(pkg, ct, rels)
  {
    if pkg.templateFile.Some? {
      var copies := TemplateCopyWrites(pkg.templateNames);
      RunStepsAppend(Oks(copies), ManifestSteps(ct, rels));
      RunOks(copies);
    }
  }

  /** A save whose first step fails writes nothing. */
  lemma {:induction false} RunFirstFails(steps: seq<Step>)
    requires steps != [] && steps[0].source.Err?
    ensures RunSteps(steps) == Saved([], Some(steps[0].source.error))
  {
    assert [steps[0]][..0] == [];
    assert steps == [steps[0]] + steps[1..];
    RunStepsAppend([steps[0]], steps[1..]);
  }

  /** The plan's three stages run one after the other. */
  lemma {:induction false} PlanStages(pkg: Package, ct: Result<Node>, rels: Result<Node>, files: seq<DirFile>, ignored: seq<string>)
    ensures var d := RunSteps(DirSteps(pkg, ct, rels, files, ignored));
            var f := RunSteps(FileSteps(pkg, ct, rels));
            Plan(pkg, ct, rels, files, ignored) ==
              if d.error.Some? then d
              else if f.error.Some? then Saved(d.writes + f.writes, f.error)
              else Saved(d.writes + f.writes + MediaWrites(pkg.toCopy) + [DocumentWrite(pkg)], None)
  {
    var dir := DirSteps(pkg, ct, rels, files, ignored);
    var file := FileSteps(pkg, ct, rels);
    RunStepsAppend(dir, file);
    RunStepsAppend(dir + file, TailSteps(pkg));
    RunOks(MediaWrites(pkg.toCopy) + [DocumentWrite(pkg)]);
  }

  /** The plan is the two branches' outcomes, one after the other, then the
      media and the document part, stopping at the first failure. */
  lemma {:induction false} PlanByBranches(pkg: Package, ct: Result<Node>, rels: Result<Node>, files: seq<DirFile>, ignored: seq<string>)
    ensures var d := DirOutcome(pkg, ct, rels, files, ignored);
            var f := FileOutcome(pkg, ct, rels);
            Plan(pkg, ct, rels, files, ignored) ==
              if d.error.Some? then d
              else if f.error.Some? then Saved(d.writes + f.writes, f.error)
              else Saved(d.writes + f.writes + MediaWrites(pkg.toCopy) + [DocumentWrite(pkg)], None)
  {
    PlanStages(pkg, ct, rels, files, ignored);
    DirStepsRun(pkg, ct, rels, files, ignored);
    FileStepsRun(pkg, ct, rels);
  }

  /** A save that does not fail ends with the queued media, in queue order,
      and then the document part. */
  lemma {:induction false} SaveEndsWithDocument(pkg: Package, ct: Result<Node>, rels: Result<Node>, files: seq<DirFile>, ignored: seq<string>)
    ensures var s := Plan(pkg, ct, rels, files, ignored);
            s.error.None? ==>
              |s.writes| > |pkg.toCopy| &&
              s.writes[|s.writes| - |pkg.toCopy| - 1..] == MediaWrites(pkg.toCopy) + [DocumentWrite(pkg)]
  {
    PlanStages(pkg, ct, rels, files, ignored);
    var s := Plan(pkg, ct, rels, files, ignored);
    if s.error.None? {
      var head := RunSteps(DirSteps(pkg, ct, rels, files, ignored)).writes + RunSteps(FileSteps(pkg, ct, rels)).writes;
      assert s.writes == head + (MediaWrites(pkg.toCopy) + [DocumentWrite(pkg)]);
    }
  }

  /** A document with neither template archive nor template directory saves
      its media and its document part, and nothing else. */
  lemma {:induction false} SaveWithoutTemplate(pkg: Package, ct: Result<Node>, rels: Result<Node>, files: seq<DirFile>, ignored: seq<string>)
    requires pkg.templateFile.None? && pkg.templateDir == ""
    ensures Plan(pkg, ct, rels, files, ignored) == Saved(MediaWrites(pkg.toCopy) + [DocumentWrite(pkg)], None)
  {
    PlanStages(pkg, ct, rels, files, ignored);
  }

  /** A document built from a template archive (and no directory) copies the
      archive but for the rewritten parts, then writes the relationships and
      the content types, the media and the document part. */
  lemma {:induction false} SaveFromTemplateFile(pkg: Package, ct: Result<Node>, rels: Result<Node>, files: seq<DirFile>, ignored: seq<string>)
    requires pkg.templateFile.Some? && pkg.templateDir == ""
    requires rels.Ok? && ct.Ok?
    ensures Plan(pkg, ct, rels, files, ignored) ==
              Saved(TemplateCopyWrites(pkg.templateNames) +
                    [Write(RELATIONSHIPS_PART, Tree(rels.value)), Write(CONTENT_TYPES_PART, Tree(ct.value))] +
                    MediaWrites(pkg.toCopy) + [DocumentWrite(pkg)], None)
  {
    PlanStages(pkg, ct, rels, files, ignored);
    var mw := [Write(RELATIONSHIPS_PART, Tree(rels.value)), Write(CONTENT_TYPES_PART, Tree(ct.value))];
    assert ManifestSteps(ct, rels) == Oks(mw);
    RunOks(mw);
    RunOks(TemplateCopyWrites(pkg.templateNames));
    RunStepsAppend(Oks(TemplateCopyWrites(pkg.templateNames)), ManifestSteps(ct, rels));
    assert DirSteps(pkg, ct, rels, files, ignored) == [];
    assert RunSteps(FileSteps(pkg, ct, rels)) == Saved(TemplateCopyWrites(pkg.templateNames) + mw, None);
    assert [] + (TemplateCopyWrites(pkg.templateNames) + mw) == TemplateCopyWrites(pkg.templateNames) + mw;
  }

  /** With a template directory, a document whose property attributes were
      never set (one built from a template archive) fails before writing
      anything; so does a fresh one whose core properties are still None. */
  lemma {:induction false} SaveDirWithoutCoreFails(pkg: Package, ct: Result<Node>, rels: Result<Node>, files: seq<DirFile>, ignored: seq<string>)
    requires pkg.templateDir != ""
    ensures !pkg.propertiesSet ==> Plan(pkg, ct, rels, files, ignored) == Saved([], Some(AttributeError("core_properties")))
    ensures pkg.propertiesSet && !pkg.hasCore ==> Plan(pkg, ct, rels, files, ignored) == Saved([], Some(AttributeError("_xml")))
  {
    if !pkg.propertiesSet || !pkg.hasCore {
      var xs := XmlSteps(pkg, ct, rels);
      RunFirstFails(xs);
      RunStepsAppend(xs, Oks(DirWrites(files, ignored)));
      PlanStages(pkg, ct, rels, files, ignored);
    }
  }

  /** A fresh document with its core properties set and a template directory
      writes the five generated parts, the directory's files but for the
      ignored names, the media and the document part. */
  lemma {:induction false} SaveFromTemplateDir(pkg: Package, ct: Result<Node>, rels: Result<Node>, files: seq<DirFile>, ignored: seq<string>)
    requires pkg.templateFile.None? && pkg.templateDir != "" && pkg.propertiesSet && pkg.hasCore
    requires rels.Ok? && ct.Ok?
    ensures Plan(pkg, ct, rels, files, ignored) ==
              Saved([Write(CORE_PART, CoreXml), Write(APP_PART, AppXml), Write(CONTENT_TYPES_PART, Tree(ct.value)),
                     Write(WEB_SETTINGS_PART, WebSettingsTree), Write(RELATIONSHIPS_PART, Tree(rels.value))] +
                    DirWrites(files, ignored) + MediaWrites(pkg.toCopy) + [DocumentWrite(pkg)], None)
  {
    var xw := [Write(CORE_PART, CoreXml), Write(APP_PART, AppXml), Write(CONTENT_TYPES_PART, Tree(ct.value)),
               Write(WEB_SETTINGS_PART, WebSettingsTree), Write(RELATIONSHIPS_PART, Tree(rels.value))];
    assert RunSteps(XmlSteps(pkg, ct, rels)) == Saved(xw, None) by {
      assert XmlSteps(pkg, ct, rels) == Oks(xw);
      RunOks(xw);
    }
    PlanByBranches(pkg, ct, rels, files, ignored);
    assert xw + DirWrites(files, ignored) + [] == xw + DirWrites(files, ignored);
  }

  /** The parts a save generates itself. */
  const GENERATED_PARTS: seq<string> :=
    [CORE_PART, APP_PART, CONTENT_TYPES_PART, WEB_SETTINGS_PART, RELATIONSHIPS_PART, DOCUMENT_PART]

  /** The base name of a path ending in "/" and a name without '/' is that name. */
  lemma {:induction false} BasenameAfterSlash(path: string, prefix: string, name: string)
    requires '/' !in name && path == prefix + "/" + name
    ensures Basename(path) == name
  {
    var r := Basename(path);
    BasenameIsLastSegment(path);
    assert path[|path| - |name| - 1] == '/';
    assert path[|path| - |name|..] == name;
  }

  /** With the package's own ignore list, a relationships file in the
      template directory is copied over the generated relationships part. */
  lemma {:induction false} IgnoreListMissesRelationships()
    ensures DirWrites([DirFile("word/_rels", "document.xml.rels")], FILES_TO_IGNORE) ==
              [Write(RELATIONSHIPS_PART, TemplateFile(RELATIONSHIPS_PART))]
  {
    var f := DirFile("word/_rels", "document.xml.rels");
    RelationshipsFileNotIgnored();
    RelationshipsFilePath();
    DirWritesSingle(f, FILES_TO_IGNORE);
  }

  /** A save with a template directory whose walk meets the relationships
      file writes the relationships part twice: first the generated one,
      then the template's copy over it. */
  lemma {:induction false} SavePlanWritesRelationshipsTwice(pkg: Package, ctOrder: seq<Option<string>>)
    requires pkg.templateFile.None? && pkg.templateDir != "" && pkg.propertiesSet && pkg.hasCore
    requires Enumerates(ctOrder, pkg.types)
    requires ContentTypesXml(pkg.types, ctOrder).Ok? && RelationshipsXml(pkg.rels).Ok?
    ensures var s := SavePlan(pkg, ctOrder, [DirFile("word/_rels", "document.xml.rels")]);
            && s.error.None? && |s.writes| > 5
            && s.writes[4] == Write(RELATIONSHIPS_PART, Tree(RelationshipsXml(pkg.rels).value))
            && s.writes[5] == Write(RELATIONSHIPS_PART, TemplateFile(RELATIONSHIPS_PART))
  {
    var ct, rels := ContentTypesXml(pkg.types, ctOrder), RelationshipsXml(pkg.rels);
    var files := [DirFile("word/_rels", "document.xml.rels")];
    var xw := [Write(CORE_PART, CoreXml), Write(APP_PART, AppXml), Write(CONTENT_TYPES_PART, Tree(ct.value)),
               Write(WEB_SETTINGS_PART, WebSettingsTree), Write(RELATIONSHIPS_PART, Tree(rels.value))];
    var copies := [Write(RELATIONSHIPS_PART, TemplateFile(RELATIONSHIPS_PART))];
    SaveFromTemplateDir(pkg, ct, rels, files, FILES_TO_IGNORE);
    IgnoreListMissesRelationships();
    var ws := xw + copies + MediaWrites(pkg.toCopy) + [DocumentWrite(pkg)];
    assert SavePlan(pkg, ctOrder, files) == Saved(ws, None);
    assert ws[4] == xw[4] && ws[5] == copies[0];
  }

  /** The walked relationships file has a bare name the ignore list lacks. */
  lemma {:induction false} RelationshipsFileNotIgnored()
    ensures "document.xml.rels" !in FILES_TO_IGNORE
  {
    assert FILES_TO_IGNORE[7] != "document.xml.rels" by { assert |FILES_TO_IGNORE[7]| != |"document.xml.rels"|; }
  }

  /** The walked relationships file's relative path is the relationships part. */
  lemma {:induction false} RelationshipsFilePath()
    ensures EntryPath(DirFile("word/_rels", "document.xml.rels")) == RELATIONSHIPS_PART
  {
  }

  /** A single walked file is written under its path unless its name is ignored. */
  lemma {:induction false} DirWritesSingle(f: DirFile, ignored: seq<string>)
    ensures DirWrites([f], ignored) ==
              if f.filename in ignored then [] else [Write(EntryPath(f), TemplateFile(EntryPath(f)))]
  {
    assert [f][..0] == [];
    assert DirWrites([f][..0], ignored) == [];
  }

  /** A file at the top of the template directory is never a generated
      part: those live in sub-directories, but for the ignored content types. */
  lemma {:induction false} TopLevelFileIsNotGenerated(name: string)
    requires '/' !in name && name !in IGNORED_FILENAMES
    ensures name !in GENERATED_PARTS
  {
    assert IGNORED_FILENAMES[5] == CONTENT_TYPES_PART;
    assert CORE_PART[8] == '/' && APP_PART[8] == '/';
    assert WEB_SETTINGS_PART[4] == '/' && RELATIONSHIPS_PART[4] == '/' && DOCUMENT_PART[4] == '/';
  }

  /** A file in a sub-directory is a generated part only if its bare name is
      that part's base name, and every such base name is ignored. */
  lemma {:induction false} NestedFileIsNotGenerated(f: DirFile)
    requires f.dir != "" && '/' !in f.filename && f.filename !in IGNORED_FILENAMES
    ensures EntryPath(f) !in GENERATED_PARTS
  {
    BasenameAfterSlash(EntryPath(f), f.dir, f.filename);
    CoreBasename();
    AppBasename();
    ContentTypesBasename();
    WebSettingsBasename();
    RelationshipsBasename();
    DocumentBasename();
    assert IGNORED_FILENAMES[3] == "core.xml" && IGNORED_FILENAMES[4] == "app.xml";
    assert IGNORED_FILENAMES[5] == "[Content_Types].xml" && IGNORED_FILENAMES[6] == "webSettings.xml";
    assert IGNORED_FILENAMES[7] == "document.xml.rels" && IGNORED_FILENAMES[2] == "document.xml";
  }

  /** With the corrected list, copying a template directory never writes an
      entry under the name of a part the save generates. */
  lemma {:induction false} DirCopySkipsGeneratedParts(files: seq<DirFile>)
    requires forall i :: 0 <= i < |files| ==> '/' !in files[i].filename
    ensures forall w :: w in DirWrites(files, IGNORED_FILENAMES) ==> w.name !in GENERATED_PARTS
  {
    DirWritesMembers(files, IGNORED_FILENAMES);
    forall w | w in DirWrites(files, IGNORED_FILENAMES) ensures w.name !in GENERATED_PARTS {
      var f :| f in files && f.filename !in IGNORED_FILENAMES && w == Write(EntryPath(f), TemplateFile(EntryPath(f)));
      var i :| 0 <= i < |files| && files[i] == f;
      if f.dir == "" {
        TopLevelFileIsNotGenerated(f.filename);
      } else {
        NestedFileIsNotGenerated(f);
      }
    }
  }

  /** No media entry has the name of a generated part. */
  lemma {:induction false} MediaNameNotGenerated(name: string)
    ensures MEDIA_DIR + name !in GENERATED_PARTS
  {
    var m := MEDIA_DIR + name;
    assert m[0] == 'w' && m[5] == 'm';
    assert CORE_PART[0] == 'd' && APP_PART[0] == 'd' && CONTENT_TYPES_PART[0] == '[';
    assert WEB_SETTINGS_PART[5] == 'w' && RELATIONSHIPS_PART[5] == '_' && DOCUMENT_PART[5] == 'd';
  }

  /** With the corrected list, a save from a template directory writes
      every part it generates once: before the media, the five generated
      parts are the only entries with a generated name, and after them
      only the document part, last. */
  lemma {:induction false} CorrectedSaveWritesPartsOnce(pkg: Package, ctOrder: seq<Option<string>>, files: seq<DirFile>)
    requires pkg.templateFile.None? && pkg.templateDir != "" && pkg.propertiesSet && pkg.hasCore
    requires Enumerates(ctOrder, pkg.types)
    requires ContentTypesXml(pkg.types, ctOrder).Ok? && RelationshipsXml(pkg.rels).Ok?
    requires forall i :: 0 <= i < |files| ==> '/' !in files[i].filename
    ensures var s := SavePlanCorrected(pkg, ctOrder, files);
            && s.error.None? && |s.writes| > 5
            && (forall i :: 0 <= i < 5 ==> s.writes[i].name == GENERATED_PARTS[i])
            && s.writes[|s.writes| - 1].name == DOCUMENT_PART
            && forall i :: 5 <= i < |s.writes| - 1 ==> s.writes[i].name !in GENERATED_PARTS
  {
    var ct, rels := ContentTypesXml(pkg.types, ctOrder), RelationshipsXml(pkg.rels);
    SaveFromTemplateDir(pkg, ct, rels, files, IGNORED_FILENAMES);
    var xw := [Write(CORE_PART, CoreXml), Write(APP_PART, AppXml), Write(CONTENT_TYPES_PART, Tree(ct.value)),
               Write(WEB_SETTINGS_PART, WebSettingsTree), Write(RELATIONSHIPS_PART, Tree(rels.value))];
    GeneratedWritesNamed(ct.value, rels.value);
    DirCopySkipsGeneratedParts(files);
    MediaNotGenerated(pkg.toCopy);
    GeneratedOnlyAtEnds(xw, DirWrites(files, IGNORED_FILENAMES), MediaWrites(pkg.toCopy), DocumentWrite(pkg));
  }

  /** The five parts a save generates before the copies come in the order
      of `GENERATED_PARTS`. */
  lemma {:induction false} GeneratedWritesNamed(ct: Node, rels: Node)
    ensures var xw := [Write(CORE_PART, CoreXml), Write(APP_PART, AppXml), Write(CONTENT_TYPES_PART, Tree(ct)),
                       Write(WEB_SETTINGS_PART, WebSettingsTree), Write(RELATIONSHIPS_PART, Tree(rels))];
            |xw| == 5 && forall i :: 0 <= i < 5 ==> xw[i].name == GENERATED_PARTS[i]
  {
  }

  /** No media entry carries the name of a generated part. */
  lemma {:induction false} MediaNotGenerated(toCopy: seq<MediaCopy>)
    ensures forall i :: 0 <= i < |toCopy| ==> MediaWrites(toCopy)[i].name !in GENERATED_PARTS
  {
    forall i | 0 <= i < |toCopy| ensures MediaWrites(toCopy)[i].name !in GENERATED_PARTS {
      MediaNameNotGenerated(toCopy[i].name);
    }
  }

  /** Entries laid out as the five generated parts, copies and media with
      other names, and the document part carry generated names only at the
      two ends. */
  lemma {:induction false} GeneratedOnlyAtEnds(xw: seq<Write>, copies: seq<Write>, media: seq<Write>, last: Write)
    requires |xw| == 5 && forall i :: 0 <= i < 5 ==> xw[i].name == GENERATED_PARTS[i]
    requires forall w :: w in copies ==> w.name !in GENERATED_PARTS
    requires forall i :: 0 <= i < |media| ==> media[i].name !in GENERATED_PARTS
    requires last.name == DOCUMENT_PART
    ensures var s := xw + copies + media + [last];
            && (forall i :: 0 <= i < 5 ==> s[i].name == GENERATED_PARTS[i])
            && s[|s| - 1].name == DOCUMENT_PART
            && forall i :: 5 <= i < |s| - 1 ==> s[i].name !in GENERATED_PARTS
  {
    var s := xw + copies + media + [last];
    forall i | 5 <= i < |s| - 1 ensures s[i].name !in GENERATED_PARTS {
      if i < 5 + |copies| {
        assert s[i] == copies[i - 5];
      } else {
        assert s[i] == media[i - 5 - |copies|];
      }
    }
  }

  /** A path without '/' is its own base name. */
  lemma {:induction false} BasenameWithoutSlash(path: string)
    requires '/' !in path
    ensures Basename(path) == path
  {
    BasenameIsLastSegment(path);
  }

  /** The base names of the parts a save generates. */
  lemma {:induction false} CoreBasename() ensures Basename(CORE_PART) == "core.xml" {
    BasenameAfterSlash(CORE_PART, "docProps", "core.xml");
  }

  lemma {:induction false} AppBasename() ensures Basename(APP_PART) == "app.xml" {
    BasenameAfterSlash(APP_PART, "docProps", "app.xml");
  }

  lemma {:induction false} ContentTypesBasename() ensures Basename(CONTENT_TYPES_PART) == "[Content_Types].xml" {
    BasenameWithoutSlash(CONTENT_TYPES_PART);
  }

  lemma {:induction false} WebSettingsBasename() ensures Basename(WEB_SETTINGS_PART) == "webSettings.xml" {
    BasenameAfterSlash(WEB_SETTINGS_PART, "word", "webSettings.xml");
  }

  lemma {:induction false} RelationshipsBasename() ensures Basename(RELATIONSHIPS_PART) == "document.xml.rels" {
    BasenameAfterSlash(RELATIONSHIPS_PART, "word/_rels", "document.xml.rels");
  }

  lemma {:induction false} DocumentBasename() ensures Basename(DOCUMENT_PART) == "document.xml" {
    BasenameAfterSlash(DOCUMENT_PART, "word", "document.xml");
  }

  /** Copying a template archive never writes the parts the save writes
      afterwards. */
  lemma {:induction false} TemplateCopySkipsRewrittenParts(names: seq<string>)
    ensures forall w :: w in TemplateCopyWrites(names) ==>
              w.name != DOCUMENT_PART && w.name != RELATIONSHIPS_PART && w.name != CONTENT_TYPES_PART
  {
    TemplateCopyMembers(names);
    ContentTypesBasename();
    RelationshipsBasename();
    DocumentBasename();
  }
}
