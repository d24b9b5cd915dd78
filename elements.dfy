/** The document fragment builders: page and section breaks, paragraphs with
    styled runs, headings, tables, and the inline picture that also registers
    its image with the document's relationship table and media queue. */
module Elements {
  import opened Wrappers
  import opened XmlTree
  import opened Namespaces
  import opened Strings
  import opened Utils
  import opened Meta
  import Document

  // ---------------------------------------------------------------------
  // Building blocks
  // ---------------------------------------------------------------------

  /** `make_element(tag, attributes=...)` with the default prefix: a
      WordprocessingML element whose attributes share its namespace. */
  function W(tag: string, attributes: map<string, string>): (n: Node)
    ensures n.tag == Qualified("w", tag) && n.children == [] && n.text.None?
  {
    var attrs := if attributes == map[] then map[] else QualifyAttributes(Qualified("w", ""), attributes);
    Node(Qualified("w", tag), map[], attrs, None, [])
  }

  /** `make_element(tag, tagtext=text)`: a WordprocessingML element holding
      its text, or no text when the text is empty. */
  function WText(tag: string, text: string): (n: Node)
    ensures n.tag == Qualified("w", tag) && n.children == [] && n.attrs == map[]
    ensures n.text.Some? <==> text != ""
  {
    Node(Qualified("w", tag), map[], map[], if text != "" then Some(text) else None, [])
  }

  /** `make_element(tag, nsprefix=prefix, attributes=...)` with a prefix
      other than `w`: the attributes keep their bare names. */
  function Elem(prefix: string, tag: string, attributes: map<string, string>): (n: Node)
    requires prefix in NSPREFIXES
    ensures n.tag == Qualified(prefix, tag) && n.children == [] && n.attrs == attributes
  {
    Node(Qualified(prefix, tag), map[], attributes, None, [])
  }

  /** Each shorthand builds exactly the element the factory makes. */
  lemma {:induction false} WIsMadeElement(tag: string, attributes: map<string, string>)
    ensures MakeElement(tag, "", One("w"), attributes, "") == Ok(W(tag, attributes))
  {
    assert ResolvePrefix(One("w")) == Ok(("w", map[]));
  }

  lemma {:induction false} WTextIsMadeElement(tag: string, text: string)
    ensures MakeElement(tag, text, One("w"), map[], "") == Ok(WText(tag, text))
  {
  }

  lemma {:induction false} ElemIsMadeElement(prefix: string, tag: string, attributes: map<string, string>)
    requires prefix in NSPREFIXES && prefix != "w"
    ensures MakeElement(tag, "", One(prefix), attributes, "") == Ok(Elem(prefix, tag, attributes))
  {
  }

  /** An element after `append` of each of `kids`, in order. */
  function Extend(parent: Node, kids: seq<Node>): (r: Node)
    ensures r.children == parent.children + kids
    ensures r.tag == parent.tag && r.nsmap == parent.nsmap && r.attrs == parent.attrs && r.text == parent.text
  {
    parent.(children := parent.children + kids)
  }

  /** The value of the WordprocessingML attribute `name`. */
  function WAttr(n: Node, name: string): Option<string>
  {
    Get(n, Qualified("w", name))
  }

  /** A `w` element carries exactly the attributes it was given, each in
      the `w` namespace. */
  lemma {:induction false} WAttrOfW(tag: string, attributes: map<string, string>, name: string)
    ensures WAttr(W(tag, attributes), name) == if name in attributes then Some(attributes[name]) else None
  {
    var ns := Qualified("w", "");
    assert ns + name == Qualified("w", name);
    QualifyAttributesQualified(ns, attributes);
  }

  /** The shorthand's paragraph tag is the one the document operations
      look for. */
  lemma {:induction false} ParagraphTag()
    ensures Qualified("w", "p") == W_P
  {
  }

  /** The element reached from `n` by following child positions. */
  function At(n: Node, path: seq<nat>): Option<Node>
  {
    if path == [] then Some(n)
    else if path[0] < |n.children| then At(n.children[path[0]], path[1..])
    else None
  }

  // ---------------------------------------------------------------------
  // pagebreak
  // ---------------------------------------------------------------------

  const BREAK_TYPES: seq<string> := ["page", "section"]

  /** The page size element of a section break, None for an orientation
      that leaves `pgSz` unassigned. */
  function PageSize(orient: string): Option<Node>
  {
    if orient == "portrait" then Some(W("pgSz", map["w" := "12240", "h" := "15840"]))
    else if orient == "landscape" then Some(W("pgSz", map["h" := "12240", "w" := "15840", "orient" := "landscape"]))
    else None
  }

  /** `pagebreak(type, orient)`. */
  function PageBreak(breakType: string, orient: string): Result<Node>
  {
    if breakType !in BREAK_TYPES then
      Err(ValueError("Page break style \"" + breakType + "\" not implemented. Valid styles: ['page', 'section']."))
    else if breakType == "page" then
      Ok(Extend(W("p", map[]), [Extend(W("r", map[]), [W("br", map["type" := breakType])])]))
    else
      match PageSize(orient)
      case None => Err(UnboundLocalError("pgSz"))
      case Some(pgSz) => Ok(Extend(W("p", map[]), [Extend(W("pPr", map[]), [Extend(W("sectPr", map[]), [pgSz])])]))
  }

  /** A break type other than page or section is refused whatever the
      orientation; a section break with an orientation other than portrait
      or landscape fails on the unassigned page size; nothing else fails. */
  lemma {:induction false} PageBreakFailures(breakType: string, orient: string)
    ensures breakType != "page" && breakType != "section" ==>
              PageBreak(breakType, orient).Err? && PageBreak(breakType, orient).error.ValueError?
    ensures breakType == "section" && orient != "portrait" && orient != "landscape" ==>
              PageBreak(breakType, orient) == Err(UnboundLocalError("pgSz"))
    ensures PageBreak(breakType, orient).Ok? <==>
              breakType == "page" || (breakType == "section" && (orient == "portrait" || orient == "landscape"))
  {
  }

  /** A page break is a paragraph holding one run holding one `br` of type
      page, whatever the orientation. */
  lemma {:induction false} PageBreakShape(orient: string)
    ensures var r := PageBreak("page", orient);
            && r.Ok? && r.value.tag == W_P && |r.value.children| == 1
            && var run := r.value.children[0];
            && run.tag == Qualified("w", "r") && |run.children| == 1
            && run.children[0].tag == Qualified("w", "br")
            && WAttr(run.children[0], "type") == Some("page")
  {
    ParagraphTag();
    WAttrOfW("br", map["type" := "page"], "type");
  }

  /** The page size element of a section break, at pPr/sectPr/pgSz. */
  function SectionPageSize(p: Node): Option<Node>
  {
    At(p, [0, 0, 0])
  }

  /** A section break is a paragraph whose properties hold the page size. */
  lemma {:induction false} SectionBreakHoldsSize(orient: string)
    requires PageSize(orient).Some?
    ensures var p := PageBreak("section", orient);
            p.Ok? && p.value.tag == W_P && SectionPageSize(p.value) == PageSize(orient)
  {
    ParagraphTag();
    var p := PageBreak("section", orient).value;
    assert At(p, [0, 0, 0]) == At(p.children[0], [0, 0]);
    assert At(p.children[0], [0, 0]) == At(p.children[0].children[0], [0]);
    assert At(p.children[0].children[0], [0]) == At(p.children[0].children[0].children[0], []);
  }

  /** Portrait pages are 12240 wide and 15840 high, landscape pages the two
      swapped with the orientation recorded; no other orientation has a size. */
  lemma {:induction false} PageSizes(orient: string)
    ensures PageSize(orient).Some? <==> orient == "portrait" || orient == "landscape"
    ensures orient == "portrait" ==>
              var size := PageSize(orient).value;
              && size.tag == Qualified("w", "pgSz")
              && WAttr(size, "w") == Some("12240") && WAttr(size, "h") == Some("15840")
              && WAttr(size, "orient") == None
    ensures orient == "landscape" ==>
              var size := PageSize(orient).value;
              && size.tag == Qualified("w", "pgSz")
              && WAttr(size, "w") == Some("15840") && WAttr(size, "h") == Some("12240")
              && WAttr(size, "orient") == Some("landscape")
  {
    if orient == "portrait" {
      var portrait := map["w" := "12240", "h" := "15840"];
      WAttrOfW("pgSz", portrait, "w");
      WAttrOfW("pgSz", portrait, "h");
      WAttrOfW("pgSz", portrait, "orient");
    } else if orient == "landscape" {
      var landscape := map["h" := "12240", "w" := "15840", "orient" := "landscape"];
      WAttrOfW("pgSz", landscape, "w");
      WAttrOfW("pgSz", landscape, "h");
      WAttrOfW("pgSz", landscape, "orient");
    }
  }

  // ---------------------------------------------------------------------
  // paragraph
  // ---------------------------------------------------------------------

  /** One entry of a list `paratext`: a bare string, or a list whose first
      two entries are the run's text and its style letters. */
  datatype RunText = Unstyled(text: string) | Styled(fields: seq<string>)

  /** `paratext`: one string, or a list of run entries. */
  datatype ParaText = Plain(text: string) | Runs(items: seq<RunText>)

  /** The text and style letters of one list entry; a styled entry with
      fewer than two fields fails on the missing index. */
  function RunSource(item: RunText): Result<(string, string)>
  {
    match item
    case Unstyled(text) => Ok((text, ""))
    case Styled(fields) => if |fields| < 2 then Err(IndexError) else Ok((fields[0], fields[1]))
  }

  /** The sources of a list of entries, in order, or the first failure. */
  function RunSources(items: seq<RunText>): (r: Result<seq<(string, string)>>)
    ensures r.Ok? <==> forall i :: 0 <= i < |items| ==> RunSource(items[i]).Ok?
    ensures r.Err? ==> r.error == IndexError
    ensures r.Ok? ==> |r.value| == |items| && forall i :: 0 <= i < |items| ==> r.value[i] == RunSource(items[i]).value
  {
    if items == [] then Ok([])
    else
      var init := items[..|items| - 1];
      var rest := RunSources(init);
      var last := RunSource(items[|items| - 1]);
      assert forall i :: 0 <= i < |init| ==> items[i] == init[i];
      if rest.Err? then Err(rest.error)
      else if last.Err? then Err(last.error)
      else Ok(rest.value + [last.value])
  }

  /** The (text, style letters) pairs the runs are made from: one unstyled
      run for a plain string. */
  function ParagraphSources(paratext: ParaText): Result<seq<(string, string)>>
  {
    match paratext
    case Plain(text) => Ok([(text, "")])
    case Runs(items) => RunSources(items)
  }

  /** The run properties: bold, underline (single) and italic, in that
      order, each when its letter occurs in the style letters. */
  function RunProps(style: string): Node
  {
    Extend(W("rPr", map[]), PropsOf('b' in style, 'u' in style, 'i' in style))
  }

  /** The bold, underline and italic elements that are switched on. */
  function PropsOf(bold: bool, underline: bool, italic: bool): seq<Node>
  {
    (if bold then [W("b", map[])] else []) +
    (if underline then [W("u", map["val" := "single"])] else []) +
    (if italic then [W("i", map[])] else [])
  }

  /** One run: its properties, the rendered page break marker when the
      paragraph breaks before, then the text element. */
  function Run(text: string, style: string, breakBefore: bool): Node
  {
    Extend(W("r", map[]),
      [RunProps(style)] + (if breakBefore then [W("lastRenderedPageBreak", map[])] else []) + [WText("t", text)])
  }

  /** The runs of a list of sources, in order. */
  function RunsOf(sources: seq<(string, string)>, breakBefore: bool): (r: seq<Node>)
    ensures |r| == |sources|
    ensures forall i :: 0 <= i < |sources| ==> r[i] == Run(sources[i].0, sources[i].1, breakBefore)
  {
    if sources == [] then []
    else RunsOf(sources[..|sources| - 1], breakBefore) + [Run(sources[|sources| - 1].0, sources[|sources| - 1].1, breakBefore)]
  }

  /** The paragraph properties: its style, then its alignment. */
  function ParagraphProps(style: string, jc: string): Node
  {
    Extend(W("pPr", map[]), [W("pStyle", map["val" := style]), W("jc", map["val" := jc])])
  }

  /** `paragraph(paratext, style, breakbefore, jc)`. */
  function Paragraph(paratext: ParaText, style: string, breakBefore: bool, jc: string): (r: Result<Node>)
    ensures r.Err? ==> r.error == IndexError
  {
    match ParagraphSources(paratext)
    case Err(e) => Err(e)
    case Ok(sources) => Ok(Extend(W("p", map[]), [ParagraphProps(style, jc)] + RunsOf(sources, breakBefore)))
  }

  /** Distinct local names give distinct WordprocessingML tags. */
  lemma {:induction false} WTagsDiffer(a: string, b: string)
    requires a != b
    ensures Qualified("w", a) != Qualified("w", b)
  {
    var ns := Qualified("w", "");
    assert Qualified("w", a) == ns + a && Qualified("w", b) == ns + b;
    assert (ns + a)[|ns|..] == a && (ns + b)[|ns|..] == b;
  }

  /** A paragraph fails only on a short styled entry, and then with
      IndexError; a plain string makes one unstyled run. */
  lemma {:induction false} ParagraphFailures(paratext: ParaText, style: string, breakBefore: bool, jc: string)
    ensures var r := Paragraph(paratext, style, breakBefore, jc);
            && (r.Err? <==> paratext.Runs? && exists i :: 0 <= i < |paratext.items| && RunSource(paratext.items[i]).Err?)
            && (r.Err? ==> r.error == IndexError)
    ensures paratext.Plain? ==> ParagraphSources(paratext) == Ok([(paratext.text, "")])
  {
  }

  /** A paragraph is a `w:p` whose first child holds the style and the
      alignment, in that order, and whose remaining children are one run per
      source, in order. */
  lemma {:induction false} ParagraphShape(paratext: ParaText, style: string, breakBefore: bool, jc: string)
    ensures var r := Paragraph(paratext, style, breakBefore, jc);
            r.Ok? ==>
              var sources := ParagraphSources(paratext).value;
              && r.value.tag == W_P
              && |r.value.children| == 1 + |sources|
              && (paratext.Runs? ==> |sources| == |paratext.items|)
              && r.value.children[0].tag == Qualified("w", "pPr")
              && |r.value.children[0].children| == 2
              && WAttr(r.value.children[0].children[0], "val") == Some(style)
              && WAttr(r.value.children[0].children[1], "val") == Some(jc)
  {
    ParagraphTag();
    WAttrOfW("pStyle", map["val" := style], "val");
    WAttrOfW("jc", map["val" := jc], "val");
  }

  /** After its properties, a paragraph holds one run per source, in order. */
  lemma {:induction false} ParagraphRuns(paratext: ParaText, style: string, breakBefore: bool, jc: string)
    ensures var r := Paragraph(paratext, style, breakBefore, jc);
            r.Ok? ==>
              var sources := ParagraphSources(paratext).value;
              && |r.value.children| == 1 + |sources|
              && forall i :: 0 <= i < |sources| ==> r.value.children[i + 1] == Run(sources[i].0, sources[i].1, breakBefore)
  {
    var r := Paragraph(paratext, style, breakBefore, jc);
    if r.Ok? {
      var runs := RunsOf(ParagraphSources(paratext).value, breakBefore);
      assert r.value.children == [ParagraphProps(style, jc)] + runs;
      assert r.value.children[1..] == runs;
    }
  }

  /** The entries of `order`, in that order, that are wanted. */
  function Keep<T>(order: seq<T>, wanted: T -> bool): seq<T>
  {
    if order == [] then []
    else (if wanted(order[0]) then [order[0]] else []) + Keep(order[1..], wanted)
  }

  /** Keep keeps exactly the wanted entries of the order. */
  lemma {:induction false} KeepMembers<T>(order: seq<T>, wanted: T -> bool)
    ensures forall x :: x in Keep(order, wanted) <==> x in order && wanted(x)
  {
    if order != [] {
      KeepMembers(order[1..], wanted);
      assert order == [order[0]] + order[1..];
    }
  }

  /** The run properties, in the fixed order of the letters b, u, i: one
      element per letter that occurs in the style, named by that letter;
      underline is single. */
  lemma {:induction false} RunPropsOrder(style: string)
    ensures var props := RunProps(style).children;
            var kept := Keep("bui", c => c in style);
            && |props| == |kept|
            && (forall j :: 0 <= j < |props| ==> props[j].tag == Qualified("w", [kept[j]]))
            && (forall j :: 0 <= j < |props| && kept[j] == 'u' ==> WAttr(props[j], "val") == Some("single"))
  {
    var props := RunProps(style).children;
    var kept := Keep("bui", c => c in style);
    KeepStyleLetters(style);
    PropsOfLetters('b' in style, 'u' in style, 'i' in style);
    assert props == PropsOf('b' in style, 'u' in style, 'i' in style);
    assert PropsFor(props, kept);
  }

  /** The letters b, u, i that occur in a style, in that order. */
  lemma {:induction false} KeepStyleLetters(style: string)
    ensures Keep("bui", c => c in style)
         == (if 'b' in style then "b" else "") + (if 'u' in style then "u" else "") + (if 'i' in style then "i" else "")
  {
    assert "bui"[1..] == "ui" && "ui"[1..] == "i" && "i"[1..] == [];
    var letters := c => c in style;
    assert Keep("i", letters) == if 'i' in style then "i" else "";
    assert Keep("ui", letters) == (if 'u' in style then "u" else "") + Keep("i", letters);
  }

  /** `props` holds one property element per letter of `kept`, in order,
      named by its letter; the underline is single. */
  ghost predicate PropsFor(props: seq<Node>, kept: string)
  {
    && |props| == |kept|
    && (forall j :: 0 <= j < |props| ==> props[j].tag == Qualified("w", [kept[j]]))
    && (forall j :: 0 <= j < |props| && kept[j] == 'u' ==> WAttr(props[j], "val") == Some("single"))
  }

  lemma {:induction false} PropsForAppend(a: seq<Node>, ka: string, b: seq<Node>, kb: string)
    requires PropsFor(a, ka) && PropsFor(b, kb)
    ensures PropsFor(a + b, ka + kb)
  {
    forall j | |a| <= j < |a| + |b| ensures (a + b)[j] == b[j - |a|] && (ka + kb)[j] == kb[j - |a|] {
    }
  }

  /** The switched-on property elements, one per letter of b, u, i that is
      on, in that order. */
  lemma {:induction false} PropsOfLetters(bold: bool, underline: bool, italic: bool)
    ensures PropsFor(PropsOf(bold, underline, italic),
                     (if bold then "b" else "") + (if underline then "u" else "") + (if italic then "i" else ""))
  {
    var b, kb := if bold then [W("b", map[])] else [], if bold then "b" else "";
    var u, ku := if underline then [W("u", map["val" := "single"])] else [], if underline then "u" else "";
    var i, ki := if italic then [W("i", map[])] else [], if italic then "i" else "";
    WAttrOfW("u", map["val" := "single"], "val");
    assert PropsFor(b, kb);
    assert PropsFor(u, ku);
    assert PropsFor(i, ki);
    PropsForAppend(b, kb, u, ku);
    PropsForAppend(b + u, kb + ku, i, ki);
  }

  /** A run holds its properties first and its text element last, with the
      rendered page break marker between them exactly when the paragraph
      breaks before; the text element holds the text, or none when empty. */
  lemma {:induction false} RunShape(text: string, style: string, breakBefore: bool)
    ensures var run := Run(text, style, breakBefore).children;
            && |run| == (if breakBefore then 3 else 2)
            && run[0] == RunProps(style)
            && (breakBefore ==> run[1].tag == Qualified("w", "lastRenderedPageBreak"))
            && run[|run| - 1].tag == Qualified("w", "t")
            && TextOf(run[|run| - 1]) == text
  {
  }

  // ---------------------------------------------------------------------
  // heading
  // ---------------------------------------------------------------------

  /** The heading style name of each supported language. */
  const HEADING_STYLES: map<string, string> := map["en" := "Heading", "it" := "Titolo"]

  /** `heading(headingtext, headinglevel, lang)`: an unknown language fails
      on the style table lookup. */
  function Heading(text: string, level: int, lang: string): Result<Node>
  {
    if lang !in HEADING_STYLES then Err(KeyError(lang))
    else
      var pStyle := W("pStyle", map["val" := HEADING_STYLES[lang] + IntToString(level)]);
      Ok(Extend(W("p", map[]), [Extend(W("pPr", map[]), [pStyle]), Extend(W("r", map[]), [WText("t", text)])]))
  }

  /** A heading fails exactly for a language other than English and
      Italian. Otherwise it is a paragraph whose properties name the style
      Heading (or Titolo) followed by the level, and whose one run holds the
      text; the level reads back from the style name. */
  lemma {:induction false} HeadingShape(text: string, level: int, lang: string)
    ensures Heading(text, level, lang).Err? <==> lang != "en" && lang != "it"
    ensures Heading(text, level, lang).Err? ==> Heading(text, level, lang).error == KeyError(lang)
    ensures var h := Heading(text, level, lang);
            h.Ok? ==>
              var base := if lang == "en" then "Heading" else "Titolo";
              && h.value.tag == W_P && |h.value.children| == 2
              && At(h.value, [0, 0]).Some?
              && WAttr(At(h.value, [0, 0]).value, "val") == Some(base + IntToString(level))
              && At(h.value, [1, 0]).Some?
              && At(h.value, [1, 0]).value.tag == Qualified("w", "t")
              && TextOf(At(h.value, [1, 0]).value) == text
  {
    ParagraphTag();
    if lang in HEADING_STYLES {
      var style := HEADING_STYLES[lang] + IntToString(level);
      WAttrOfW("pStyle", map["val" := style], "val");
      var h := Heading(text, level, lang).value;
      assert At(h, [0, 0]) == At(h.children[0], [0]);
      assert At(h.children[0], [0]) == At(h.children[0].children[0], []);
      assert At(h, [1, 0]) == At(h.children[1], [0]);
      assert At(h.children[1], [0]) == At(h.children[1].children[0], []);
    }
  }

  /** The style name of a heading of non-negative level reads back as that
      level. */
  lemma {:induction false} HeadingLevelReadsBack(base: string, level: nat)
    ensures var style := base + IntToString(level);
            |base| <= |style| && style[..|base|] == base && DecimalValue(style[|base|..]) == level
  {
    var style := base + IntToString(level);
    assert style[|base|..] == NatToString(level);
    DecimalValueOfNatToString(level);
  }

  // ---------------------------------------------------------------------
  // table
  // ---------------------------------------------------------------------

  /** One entry of a cell given as a list: an element, appended as it is,
      or text (a string or a list of run entries) made into a paragraph. */
  datatype CellItem = TextItem(text: ParaText) | ElementItem(node: Node)

  /** A cell of `contents`: a string, an element, or a list of entries. */
  datatype Cell = Text(text: string) | Element(node: Node) | Items(items: seq<CellItem>)

  /** The entries of a cell; a string or an element stands alone. */
  function Entries(c: Cell): seq<CellItem>
  {
    match c
    case Text(text) => [TextItem(Plain(text))]
    case Element(node) => [ElementItem(node)]
    case Items(items) => items
  }

  /** The node an entry adds to its cell. */
  function ItemNode(item: CellItem, jc: string): (r: Result<Node>)
    ensures r.Err? ==> r.error == IndexError
  {
    match item
    case ElementItem(node) => Ok(node)
    case TextItem(text) => Paragraph(text, "BodyText", false, jc)
  }

  /** The results in order, or the first failure. */
  function Collect<T>(rs: seq<Result<T>>): (r: Result<seq<T>>)
    ensures r.Err? ==> exists i :: 0 <= i < |rs| && rs[i] == Err(r.error)
  {
    if rs == [] then Ok([])
    else
      var init := rs[..|rs| - 1];
      var rest := Collect(init);
      assert forall i :: 0 <= i < |init| ==> rs[i] == init[i];
      if rest.Err? then Err(rest.error)
      else if rs[|rs| - 1].Err? then Err(rs[|rs| - 1].error)
      else Ok(rest.value + [rs[|rs| - 1].value])
  }

  /** Collect succeeds exactly when every result does, and then holds
      every value at its position. */
  lemma {:induction false} CollectEach<T>(rs: seq<Result<T>>)
    ensures Collect(rs).Ok? <==> forall i :: 0 <= i < |rs| ==> rs[i].Ok?
    ensures Collect(rs).Ok? ==> |Collect(rs).value| == |rs| && forall i :: 0 <= i < |rs| ==> rs[i] == Ok(Collect(rs).value[i])
  {
    if rs != [] {
      var init := rs[..|rs| - 1];
      CollectEach(init);
      assert forall i :: 0 <= i < |init| ==> rs[i] == init[i];
    }
  }

  /** The nodes of a cell's entries, in order. */
  function CellNodes(items: seq<CellItem>, jc: string): Result<seq<Node>>
  {
    Collect(seq(|items|, e requires 0 <= e < |items| => ItemNode(items[e], jc)))
  }

  /** The width of cell i: the given column width in the given unit, or an
      automatic width when no widths are given. */
  function CellWidth(colw: seq<int>, i: nat, cwunit: string): Result<Node>
  {
    if colw == [] then Ok(W("tcW", map["w" := "0", "type" := "auto"]))
    else if i < |colw| then Ok(W("tcW", map["w" := IntToString(colw[i]), "type" := cwunit]))
    else Err(IndexError)
  }

  /** The shading of every header cell. */
  const HEADER_SHADING: Node :=
    W("shd", map["val" := "clear", "color" := "auto", "fill" := "548DD4", "themeFill" := "text2", "themeFillTint" := "99"])

  /** Header cell i: its width and shading, then its entries, text centred. */
  function HeaderCell(c: Cell, i: nat, colw: seq<int>, cwunit: string): (r: Result<Node>)
    ensures r.Err? ==> r.error == IndexError
  {
    match CellWidth(colw, i, cwunit)
    case Err(e) => Err(e)
    case Ok(width) =>
      match CellNodes(Entries(c), "center")
      case Err(e) => Err(e)
      case Ok(nodes) => Ok(Extend(W("tc", map[]), [Extend(W("tcPr", map[]), [width, HEADER_SHADING])] + nodes))
  }

  /** The alignment of text in content cell i: the column style's `align`
      when styles are given and it has one, left otherwise. */
  function Alignment(celstyle: seq<map<string, string>>, i: nat): Result<string>
  {
    if celstyle == [] then Ok("left")
    else if i >= |celstyle| then Err(IndexError)
    else if "align" in celstyle[i] then Ok(celstyle[i]["align"])
    else Ok("left")
  }

  /** Content cell i: its width, then its entries, text aligned by the column
      style. The column style is looked up only for text entries. */
  function ContentCell(c: Cell, i: nat, colw: seq<int>, cwunit: string, celstyle: seq<map<string, string>>): (r: Result<Node>)
    ensures r.Err? ==> r.error == IndexError
  {
    match CellWidth(colw, i, cwunit)
    case Err(e) => Err(e)
    case Ok(width) =>
      var items := Entries(c);
      var align := Alignment(celstyle, i);
      if align.Err? && exists k :: 0 <= k < |items| && items[k].TextItem? then Err(align.error)
      else
        match CellNodes(items, if align.Ok? then align.value else "left")
        case Err(e) => Err(e)
        case Ok(nodes) => Ok(Extend(W("tc", map[]), [Extend(W("tcPr", map[]), [width])] + nodes))
  }

  /** The properties of the header row. */
  const HEADER_ROW_PROPS: Node :=
    Extend(W("trPr", map[]), [W("cnfStyle", map["val" := "000000100000"])])

  /** The header cells of a row, in order. */
  function HeaderCells(row: seq<Cell>, colw: seq<int>, cwunit: string): Result<seq<Node>>
  {
    Collect(seq(|row|, i requires 0 <= i < |row| => HeaderCell(row[i], i, colw, cwunit)))
  }

  /** The header row: its properties, then one header cell per cell. */
  function HeaderRow(row: seq<Cell>, colw: seq<int>, cwunit: string): (r: Result<Node>)
    ensures r.Err? ==> r.error == IndexError
  {
    var cells := HeaderCells(row, colw, cwunit);
    if cells.Err? then Err(cells.error) else Ok(Extend(W("tr", map[]), [HEADER_ROW_PROPS] + cells.value))
  }

  /** The content cells of a row, in order. */
  function ContentCells(row: seq<Cell>, colw: seq<int>, cwunit: string, celstyle: seq<map<string, string>>): Result<seq<Node>>
  {
    Collect(seq(|row|, i requires 0 <= i < |row| => ContentCell(row[i], i, colw, cwunit, celstyle)))
  }

  /** A content row: one content cell per cell. */
  function ContentRow(row: seq<Cell>, colw: seq<int>, cwunit: string, celstyle: seq<map<string, string>>): (r: Result<Node>)
    ensures r.Err? ==> r.error == IndexError
  {
    var cells := ContentCells(row, colw, cwunit, celstyle);
    if cells.Err? then Err(cells.error) else Ok(Extend(W("tr", map[]), cells.value))
  }

  /** The grid: one column per cell of the first row, of the given width or
      2390 when no widths are given. */
  function Grid(columns: nat, colw: seq<int>): Result<Node>
  {
    if colw != [] && |colw| < columns then Err(IndexError)
    else
      Ok(Extend(W("tblGrid", map[]),
        seq(columns, i requires 0 <= i < columns =>
          W("gridCol", map["w" := if colw != [] then IntToString(colw[i]) else "2390"]))))
  }

  /** The table border sides, in the order they are emitted. */
  const BORDER_SIDES: seq<string> := ["top", "left", "bottom", "right", "insideH", "insideV"]

  /** The attributes of the border on `side`: those of `all` when given,
      which take precedence, else the side's own. */
  function BorderAttrs(borders: map<string, map<string, string>>, side: string): map<string, string>
  {
    if "all" in borders then borders["all"] else if side in borders then borders[side] else map[]
  }

  /** The border elements of the given sides, in order, for each side that
      has an entry or when `all` has one. */
  function BorderElements(sides: seq<string>, borders: map<string, map<string, string>>): seq<Node>
  {
    if sides == [] then []
    else
      (if sides[0] in borders || "all" in borders then [W(sides[0], BorderAttrs(borders, sides[0]))] else []) +
      BorderElements(sides[1..], borders)
  }

  /** The table properties: style, width, the borders when any are given,
      and the look. */
  function TableProps(tblw: int, twunit: string, borders: map<string, map<string, string>>): Node
  {
    Extend(W("tblPr", map[]),
      [W("tblStyle", map["val" := "ColorfulGrid-Accent1"]), W("tblW", map["w" := IntToString(tblw), "type" := twunit])] +
      (if |borders| > 0 then [Extend(W("tblBorders", map[]), BorderElements(BORDER_SIDES, borders))] else []) +
      [W("tblLook", map["val" := "0400"])])
  }

  /** The content rows, in order. */
  function ContentRows(rows: seq<seq<Cell>>, colw: seq<int>, cwunit: string, celstyle: seq<map<string, string>>): Result<seq<Node>>
  {
    Collect(seq(|rows|, k requires 0 <= k < |rows| => ContentRow(rows[k], colw, cwunit, celstyle)))
  }

  /** Whether `heading` is still true after the header loop, which rebinds
      it to each header cell in turn, wrapped in a list unless it is one: it
      is false only when the last header cell is an empty list. */
  predicate StillHeading(first: seq<Cell>)
  {
    first == [] || !(first[|first| - 1].Items? && first[|first| - 1].items == [])
  }

  /** The index of the first content row. */
  function ContentStart(heading: bool, first: seq<Cell>): (r: nat)
    ensures r <= 1
  {
    if heading && StillHeading(first) then 1 else 0
  }

  /** `table(contents, heading, colw, cwunit, tblw, twunit, borders,
      celstyle)`; an empty `colw` or `celstyle` stands for None. */
  function Table(contents: seq<seq<Cell>>, heading: bool, colw: seq<int>, cwunit: string, tblw: int, twunit: string,
                 borders: map<string, map<string, string>>, celstyle: seq<map<string, string>>): Result<Node>
  {
    if contents == [] then Err(IndexError)
    else
      var grid := Grid(|contents[0]|, colw);
      var header := HeaderRow(contents[0], colw, cwunit);
      var start := ContentStart(heading, contents[0]);
      var rows := ContentRows(contents[start..], colw, cwunit, celstyle);
      if grid.Err? then Err(grid.error)
      else if heading && header.Err? then Err(header.error)
      else if rows.Err? then Err(rows.error)
      else Ok(Extend(W("tbl", map[]), [TableProps(tblw, twunit, borders), grid.value] +
                                      (if heading then [header.value] else []) + rows.value))
  }

  /** The entry nodes succeed exactly when every entry does, and then hold
      each entry's node at its position. */
  lemma {:induction false} CellNodesEach(items: seq<CellItem>, jc: string)
    ensures CellNodes(items, jc).Ok? <==> forall e :: 0 <= e < |items| ==> ItemNode(items[e], jc).Ok?
    ensures var r := CellNodes(items, jc);
            r.Ok? ==> |r.value| == |items| && forall e :: 0 <= e < |items| ==> ItemNode(items[e], jc) == Ok(r.value[e])
  {
    var rs := seq(|items|, e requires 0 <= e < |items| => ItemNode(items[e], jc));
    CollectEach(rs);
    assert forall e :: 0 <= e < |items| ==> rs[e] == ItemNode(items[e], jc);
  }


  /** The header cells succeed exactly when every cell does, and then hold
      each cell's node at its position. */
  lemma {:induction false} HeaderCellsEach(row: seq<Cell>, colw: seq<int>, cwunit: string)
    ensures HeaderCells(row, colw, cwunit).Ok? <==> forall i :: 0 <= i < |row| ==> HeaderCell(row[i], i, colw, cwunit).Ok?
    ensures var r := HeaderCells(row, colw, cwunit);
            r.Ok? ==> |r.value| == |row| && forall i :: 0 <= i < |row| ==> HeaderCell(row[i], i, colw, cwunit) == Ok(r.value[i])
  {
    var rs := seq(|row|, i requires 0 <= i < |row| => HeaderCell(row[i], i, colw, cwunit));
    CollectEach(rs);
    assert forall i :: 0 <= i < |row| ==> rs[i] == HeaderCell(row[i], i, colw, cwunit);
  }


  /** The content cells succeed exactly when every cell does, and then hold
      each cell's node at its position. */
  lemma {:induction false} ContentCellsEach(row: seq<Cell>, colw: seq<int>, cwunit: string, celstyle: seq<map<string, string>>)
    ensures ContentCells(row, colw, cwunit, celstyle).Ok? <==>
              forall i :: 0 <= i < |row| ==> ContentCell(row[i], i, colw, cwunit, celstyle).Ok?
    ensures var r := ContentCells(row, colw, cwunit, celstyle);
            r.Ok? ==> |r.value| == |row| &&
                      forall i :: 0 <= i < |row| ==> ContentCell(row[i], i, colw, cwunit, celstyle) == Ok(r.value[i])
  {
    var rs := seq(|row|, i requires 0 <= i < |row| => ContentCell(row[i], i, colw, cwunit, celstyle));
    CollectEach(rs);
    assert forall i :: 0 <= i < |row| ==> rs[i] == ContentCell(row[i], i, colw, cwunit, celstyle);
  }


  /** The content rows succeed exactly when every row does, and then hold
      each row's node at its position. */
  lemma {:induction false} ContentRowsEach(rows: seq<seq<Cell>>, colw: seq<int>, cwunit: string, celstyle: seq<map<string, string>>)
    ensures ContentRows(rows, colw, cwunit, celstyle).Ok? <==>
              forall k :: 0 <= k < |rows| ==> ContentRow(rows[k], colw, cwunit, celstyle).Ok?
    ensures var r := ContentRows(rows, colw, cwunit, celstyle);
            r.Ok? ==> |r.value| == |rows| &&
                      forall k :: 0 <= k < |rows| ==> ContentRow(rows[k], colw, cwunit, celstyle) == Ok(r.value[k])
  {
    var rs := seq(|rows|, k requires 0 <= k < |rows| => ContentRow(rows[k], colw, cwunit, celstyle));
    CollectEach(rs);
    assert forall k :: 0 <= k < |rows| ==> rs[k] == ContentRow(rows[k], colw, cwunit, celstyle);
  }


  /** A paragraph can be made from the text: no styled entry lacks its
      text or its style letters. */
  predicate ParagraphBuilds(t: ParaText)
  {
    t.Runs? ==> forall i :: 0 <= i < |t.items| ==> !(t.items[i].Styled? && |t.items[i].fields| < 2)
  }

  /** Exactly the texts that pass ParagraphBuilds make a paragraph. */
  lemma {:induction false} ParagraphBuildsExactly(t: ParaText, style: string, breakBefore: bool, jc: string)
    ensures Paragraph(t, style, breakBefore, jc).Ok? <==> ParagraphBuilds(t)
  {
    if t.Runs? {
      forall i | 0 <= i < |t.items|
        ensures RunSource(t.items[i]).Ok? <==> !(t.items[i].Styled? && |t.items[i].fields| < 2)
      {
      }
    }
  }

  /** The node of an entry can be made. */
  predicate ItemBuilds(item: CellItem)
  {
    item.TextItem? ==> ParagraphBuilds(item.text)
  }

  /** Every entry of a cell can be made. */
  predicate CellBuilds(c: Cell)
  {
    forall e :: 0 <= e < |Entries(c)| ==> ItemBuilds(Entries(c)[e])
  }

  /** The cell has a text entry, the only kind that looks up the column style. */
  predicate HasText(c: Cell)
  {
    exists e :: 0 <= e < |Entries(c)| && Entries(c)[e].TextItem?
  }

  /** A cell's entries fail only on a text entry a paragraph cannot be made
      from; otherwise each element is kept as it is and each text becomes a
      body-text paragraph with the given alignment, in order. */
  lemma {:induction false} CellNodesShape(items: seq<CellItem>, jc: string)
    ensures CellNodes(items, jc).Ok? <==> forall e :: 0 <= e < |items| ==> ItemBuilds(items[e])
    ensures var r := CellNodes(items, jc);
            r.Ok? ==>
              && |r.value| == |items|
              && (forall e :: 0 <= e < |items| && items[e].ElementItem? ==> r.value[e] == items[e].node)
              && (forall e :: 0 <= e < |items| && items[e].TextItem? ==>
                    Paragraph(items[e].text, "BodyText", false, jc) == Ok(r.value[e]))
  {
    CellNodesEach(items, jc);
    forall e | 0 <= e < |items|
      ensures ItemNode(items[e], jc).Ok? <==> ItemBuilds(items[e])
    {
      if items[e].TextItem? {
        ParagraphBuildsExactly(items[e].text, "BodyText", false, jc);
      }
    }
  }

  /** A cell width fails only past the end of a given width list; it is the
      given width in the given unit, or 0 in automatic units. */
  lemma {:induction false} CellWidthShape(colw: seq<int>, i: nat, cwunit: string)
    ensures CellWidth(colw, i, cwunit).Ok? <==> colw == [] || i < |colw|
    ensures CellWidth(colw, i, cwunit).Err? ==> CellWidth(colw, i, cwunit).error == IndexError
    ensures var r := CellWidth(colw, i, cwunit);
            r.Ok? ==>
              && r.value.tag == Qualified("w", "tcW")
              && WAttr(r.value, "w") == Some(if colw == [] then "0" else IntToString(colw[i]))
              && WAttr(r.value, "type") == Some(if colw == [] then "auto" else cwunit)
  {
    if colw == [] {
      WAttrOfW("tcW", map["w" := "0", "type" := "auto"], "w");
      WAttrOfW("tcW", map["w" := "0", "type" := "auto"], "type");
    } else if i < |colw| {
      WAttrOfW("tcW", map["w" := IntToString(colw[i]), "type" := cwunit], "w");
      WAttrOfW("tcW", map["w" := IntToString(colw[i]), "type" := cwunit], "type");
    }
  }

  /** A header cell fails only past the end of a given width list or on an
      entry that cannot be made. */
  lemma {:induction false} HeaderCellBuilds(c: Cell, i: nat, colw: seq<int>, cwunit: string)
    ensures HeaderCell(c, i, colw, cwunit).Ok? <==> (colw == [] || i < |colw|) && CellBuilds(c)
  {
    CellNodesShape(Entries(c), "center");
  }

  /** A header cell is a `w:tc` whose properties are its width and the
      header shading, followed by its entries with their text centred. */
  lemma {:induction false} HeaderCellShape(c: Cell, i: nat, colw: seq<int>, cwunit: string)
    ensures var r := HeaderCell(c, i, colw, cwunit);
            r.Ok? ==>
              && r.value.tag == Qualified("w", "tc")
              && |r.value.children| == 1 + |Entries(c)|
              && r.value.children[0].tag == Qualified("w", "tcPr")
              && r.value.children[0].children == [CellWidth(colw, i, cwunit).value, HEADER_SHADING]
              && CellNodes(Entries(c), "center") == Ok(r.value.children[1..])
  {
    var r := HeaderCell(c, i, colw, cwunit);
    if r.Ok? {
      var nodes := CellNodes(Entries(c), "center").value;
      var props := Extend(W("tcPr", map[]), [CellWidth(colw, i, cwunit).value, HEADER_SHADING]);
      assert r.value.children == [props] + nodes;
      CellNodesShape(Entries(c), "center");
      assert r.value.children[1..] == nodes;
    }
  }

  /** The alignment the text of content cell i gets: the column's `align`
      when column styles are given, cover the column and set one, left
      otherwise. */
  function ColumnAlignment(celstyle: seq<map<string, string>>, i: nat): string
  {
    if i < |celstyle| && "align" in celstyle[i] then celstyle[i]["align"] else "left"
  }

  /** A content cell fails only past the end of a given width list, on a
      text entry past the end of a given column-style list, or on an entry
      that cannot be made. */
  lemma {:induction false} ContentCellBuilds(c: Cell, i: nat, colw: seq<int>, cwunit: string, celstyle: seq<map<string, string>>)
    ensures ContentCell(c, i, colw, cwunit, celstyle).Ok? <==>
              (colw == [] || i < |colw|) && CellBuilds(c) && (celstyle == [] || i < |celstyle| || !HasText(c))
  {
    var align := Alignment(celstyle, i);
    CellNodesShape(Entries(c), if align.Ok? then align.value else "left");
  }

  /** A content cell is a `w:tc` whose properties are its width, followed by
      its entries with their text aligned by the column style. */
  lemma {:induction false} ContentCellShape(c: Cell, i: nat, colw: seq<int>, cwunit: string, celstyle: seq<map<string, string>>)
    ensures var r := ContentCell(c, i, colw, cwunit, celstyle);
            r.Ok? ==>
              && r.value.tag == Qualified("w", "tc")
              && |r.value.children| == 1 + |Entries(c)|
              && r.value.children[0].tag == Qualified("w", "tcPr")
              && r.value.children[0].children == [CellWidth(colw, i, cwunit).value]
              && CellNodes(Entries(c), ColumnAlignment(celstyle, i)) == Ok(r.value.children[1..])
  {
    var r := ContentCell(c, i, colw, cwunit, celstyle);
    if r.Ok? {
      var align := Alignment(celstyle, i);
      var jc := if align.Ok? then align.value else "left";
      assert align.Ok? ==> jc == ColumnAlignment(celstyle, i);
      var nodes := CellNodes(Entries(c), jc).value;
      var props := Extend(W("tcPr", map[]), [CellWidth(colw, i, cwunit).value]);
      assert r.value.children == [props] + nodes;
      CellNodesShape(Entries(c), jc);
      assert r.value.children[1..] == nodes;
    }
  }

  /** A header row fails only when a given width list is shorter than the
      row or a cell has an entry that cannot be made. */
  lemma {:induction false} HeaderRowBuilds(row: seq<Cell>, colw: seq<int>, cwunit: string)
    ensures HeaderRow(row, colw, cwunit).Ok? <==>
              (colw == [] || |row| <= |colw|) && forall i :: 0 <= i < |row| ==> CellBuilds(row[i])
  {
    HeaderCellsEach(row, colw, cwunit);
    forall i | 0 <= i < |row|
      ensures HeaderCell(row[i], i, colw, cwunit).Ok? <==> (colw == [] || i < |colw|) && CellBuilds(row[i])
    {
      HeaderCellBuilds(row[i], i, colw, cwunit);
    }
    if colw != [] && |colw| < |row| {
      assert !HeaderCell(row[|colw|], |colw|, colw, cwunit).Ok?;
    }
  }

  /** A header row is a `w:tr` holding the header row properties, then the
      header cells of the row. */
  lemma {:induction false} HeaderRowShape(row: seq<Cell>, colw: seq<int>, cwunit: string)
    ensures var r := HeaderRow(row, colw, cwunit);
            r.Ok? ==>
              && r.value.tag == Qualified("w", "tr")
              && |r.value.children| == 1 + |row|
              && r.value.children[0] == HEADER_ROW_PROPS
              && HeaderCells(row, colw, cwunit) == Ok(r.value.children[1..])
  {
    var r := HeaderRow(row, colw, cwunit);
    if r.Ok? {
      var cells := HeaderCells(row, colw, cwunit).value;
      HeaderCellsEach(row, colw, cwunit);
      assert r.value.children == [HEADER_ROW_PROPS] + cells;
      assert r.value.children[1..] == cells;
    }
  }

  /** Every cell of a content row can be made: a given width list covers
      the row, a given column-style list covers every cell with text, and
      every entry can be made. */
  predicate ContentRowFits(row: seq<Cell>, colw: seq<int>, celstyle: seq<map<string, string>>)
  {
    && (colw == [] || |row| <= |colw|)
    && forall i :: 0 <= i < |row| ==> CellBuilds(row[i]) && (celstyle == [] || i < |celstyle| || !HasText(row[i]))
  }

  /** A content row fails exactly when it does not fit. */
  lemma {:induction false} ContentRowBuilds(row: seq<Cell>, colw: seq<int>, cwunit: string, celstyle: seq<map<string, string>>)
    ensures ContentRow(row, colw, cwunit, celstyle).Ok? <==> ContentRowFits(row, colw, celstyle)
  {
    ContentCellsEach(row, colw, cwunit, celstyle);
    forall i | 0 <= i < |row|
      ensures ContentCell(row[i], i, colw, cwunit, celstyle).Ok? <==> (colw == [] || i < |colw|) && CellBuilds(row[i]) && (celstyle == [] || i < |celstyle| || !HasText(row[i]))
    {
      ContentCellBuilds(row[i], i, colw, cwunit, celstyle);
    }
    if colw != [] && |colw| < |row| {
      assert !ContentCell(row[|colw|], |colw|, colw, cwunit, celstyle).Ok?;
    }
  }

  /** A content row is a `w:tr` holding one content cell per cell of the
      row, in order. */
  lemma {:induction false} ContentRowShape(row: seq<Cell>, colw: seq<int>, cwunit: string, celstyle: seq<map<string, string>>)
    ensures var r := ContentRow(row, colw, cwunit, celstyle);
            r.Ok? ==>
              && r.value.tag == Qualified("w", "tr")
              && |r.value.children| == |row|
              && forall i :: 0 <= i < |row| ==> ContentCell(row[i], i, colw, cwunit, celstyle) == Ok(r.value.children[i])
  {
    var r := ContentRow(row, colw, cwunit, celstyle);
    if r.Ok? {
      ContentCellsEach(row, colw, cwunit, celstyle);
      assert r.value.children == ContentCells(row, colw, cwunit, celstyle).value;
    }
  }

  /** The grid fails only when a given width list is shorter than the first
      row; otherwise it has one `w:gridCol` per column, of the given width
      or of 2390 when no widths are given. */
  lemma {:induction false} GridShape(columns: nat, colw: seq<int>)
    ensures Grid(columns, colw).Ok? <==> colw == [] || columns <= |colw|
    ensures Grid(columns, colw).Err? ==> Grid(columns, colw).error == IndexError
    ensures var g := Grid(columns, colw);
            g.Ok? ==>
              && g.value.tag == Qualified("w", "tblGrid")
              && |g.value.children| == columns
              && forall i :: 0 <= i < columns ==>
                   && g.value.children[i].tag == Qualified("w", "gridCol")
                   && WAttr(g.value.children[i], "w") == Some(if colw != [] then IntToString(colw[i]) else "2390")
  {
    var g := Grid(columns, colw);
    if g.Ok? {
      forall i | 0 <= i < columns
        ensures g.value.children[i].tag == Qualified("w", "gridCol")
        ensures WAttr(g.value.children[i], "w") == Some(if colw != [] then IntToString(colw[i]) else "2390")
      {
        var width := if colw != [] then IntToString(colw[i]) else "2390";
        assert g.value.children[i] == W("gridCol", map["w" := width]);
        WAttrOfW("gridCol", map["w" := width], "w");
      }
    }
  }

  /** `bs` holds one border element per side of `kept`, in order, each with
      the attributes BorderAttrs gives that side. */
  ghost predicate BordersOf(bs: seq<Node>, kept: seq<string>, borders: map<string, map<string, string>>)
  {
    |bs| == |kept| && forall j :: 0 <= j < |bs| ==> bs[j] == W(kept[j], BorderAttrs(borders, kept[j]))
  }

  /** One more kept side in front adds its border element in front. */
  lemma {:induction false} BordersOfCons(side: string, bs: seq<Node>, kept: seq<string>, borders: map<string, map<string, string>>)
    requires BordersOf(bs, kept, borders)
    ensures BordersOf([W(side, BorderAttrs(borders, side))] + bs, [side] + kept, borders)
  {
    var bs' := [W(side, BorderAttrs(borders, side))] + bs;
    var kept' := [side] + kept;
    forall j | 0 < j < |bs'| ensures bs'[j] == W(kept'[j], BorderAttrs(borders, kept'[j])) {
      assert bs'[j] == bs[j - 1] && kept'[j] == kept[j - 1];
    }
  }

  /** The border elements are those of the sides that are wanted, in the
      order of the sides, each with the attributes BorderAttrs gives it. */
  lemma {:induction false} BorderElementsKept(sides: seq<string>, borders: map<string, map<string, string>>, wanted: string -> bool)
    requires forall s :: wanted(s) <==> s in borders || "all" in borders
    ensures var kept := Keep(sides, wanted);
            var bs := BorderElements(sides, borders);
            |bs| == |kept| && forall j :: 0 <= j < |bs| ==> bs[j] == W(kept[j], BorderAttrs(borders, kept[j]))
  {
    if sides != [] {
      BorderElementsKept(sides[1..], borders, wanted);
      var side := sides[0];
      var rest := BorderElements(sides[1..], borders);
      var keptRest := Keep(sides[1..], wanted);
      assert BordersOf(rest, keptRest, borders);
      if wanted(side) {
        assert BorderElements(sides, borders) == [W(side, BorderAttrs(borders, side))] + rest;
        assert Keep(sides, wanted) == [side] + keptRest;
        BordersOfCons(side, rest, keptRest, borders);
      } else {
        assert BorderElements(sides, borders) == rest;
        assert Keep(sides, wanted) == keptRest;
      }
    }
  }

  /** Keep keeps the whole order when every entry is wanted. */
  lemma {:induction false} KeepAll<T>(order: seq<T>, wanted: T -> bool)
    requires forall x :: x in order ==> wanted(x)
    ensures Keep(order, wanted) == order
  {
    if order != [] {
      assert forall x :: x in order[1..] ==> x in order;
      KeepAll(order[1..], wanted);
    }
  }

  /** The table borders follow the fixed side order top, left, bottom,
      right, insideH, insideV, one per side given; with `all` given, every
      side has a border, each with the attributes of `all`. */
  lemma {:induction false} BordersFollowSides(borders: map<string, map<string, string>>)
    ensures var kept := Keep(BORDER_SIDES, s => s in borders || "all" in borders);
            var bs := BorderElements(BORDER_SIDES, borders);
            |bs| == |kept| && forall j :: 0 <= j < |bs| ==> bs[j] == W(kept[j], BorderAttrs(borders, kept[j]))
    ensures "all" in borders ==>
              var bs := BorderElements(BORDER_SIDES, borders);
              |bs| == |BORDER_SIDES| && forall j :: 0 <= j < |bs| ==> bs[j] == W(BORDER_SIDES[j], borders["all"])
  {
    var wanted := s => s in borders || "all" in borders;
    BorderElementsKept(BORDER_SIDES, borders, wanted);
    if "all" in borders {
      KeepAll(BORDER_SIDES, wanted);
    }
  }

  /** The table properties are the style ColorfulGrid-Accent1, the width in
      its unit, the borders when any are given, and the look 0400. */
  lemma {:induction false} TablePropsShape(tblw: int, twunit: string, borders: map<string, map<string, string>>)
    ensures var p := TableProps(tblw, twunit, borders);
            && p.tag == Qualified("w", "tblPr")
            && |p.children| == (if |borders| > 0 then 4 else 3)
            && p.children[0].tag == Qualified("w", "tblStyle")
            && WAttr(p.children[0], "val") == Some("ColorfulGrid-Accent1")
            && p.children[1].tag == Qualified("w", "tblW")
            && WAttr(p.children[1], "w") == Some(IntToString(tblw))
            && WAttr(p.children[1], "type") == Some(twunit)
            && (|borders| > 0 ==> p.children[2].tag == Qualified("w", "tblBorders") &&
                                  p.children[2].children == BorderElements(BORDER_SIDES, borders))
            && p.children[|p.children| - 1].tag == Qualified("w", "tblLook")
            && WAttr(p.children[|p.children| - 1], "val") == Some("0400")
  {
    WAttrOfW("tblStyle", map["val" := "ColorfulGrid-Accent1"], "val");
    WAttrOfW("tblW", map["w" := IntToString(tblw), "type" := twunit], "w");
    WAttrOfW("tblW", map["w" := IntToString(tblw), "type" := twunit], "type");
    WAttrOfW("tblLook", map["val" := "0400"], "val");
  }

  /** Every part of a non-empty table can be made: a given width list
      covers the first row, every header cell can be made when there is a
      heading, and every content row fits. */
  predicate TableFits(contents: seq<seq<Cell>>, heading: bool, colw: seq<int>, celstyle: seq<map<string, string>>)
    requires contents != []
  {
    && (colw == [] || |contents[0]| <= |colw|)
    && (heading ==> forall i :: 0 <= i < |contents[0]| ==> CellBuilds(contents[0][i]))
    && forall k :: ContentStart(heading, contents[0]) <= k < |contents| ==> ContentRowFits(contents[k], colw, celstyle)
  }

  /** A table fails only with IndexError. */
  lemma {:induction false} TableErrorKind(contents: seq<seq<Cell>>, heading: bool, colw: seq<int>, cwunit: string, tblw: int,
                                          twunit: string, borders: map<string, map<string, string>>, celstyle: seq<map<string, string>>)
    ensures var t := Table(contents, heading, colw, cwunit, tblw, twunit, borders, celstyle);
            t.Err? ==> t.error == IndexError
  {
    if contents != [] {
      GridShape(|contents[0]|, colw);
      ContentRowsErrorKind(contents[ContentStart(heading, contents[0])..], colw, cwunit, celstyle);
    }
  }

  /** Content rows fail only with IndexError. */
  lemma {:induction false} ContentRowsErrorKind(rows: seq<seq<Cell>>, colw: seq<int>, cwunit: string, celstyle: seq<map<string, string>>)
    ensures ContentRows(rows, colw, cwunit, celstyle).Err? ==> ContentRows(rows, colw, cwunit, celstyle).error == IndexError
  {
    var rs := seq(|rows|, k requires 0 <= k < |rows| => ContentRow(rows[k], colw, cwunit, celstyle));
    var r := Collect(rs);
    if r.Err? {
      var k :| 0 <= k < |rs| && rs[k] == Err(r.error);
      assert rs[k] == ContentRow(rows[k], colw, cwunit, celstyle);
    }
  }

  /** The children of a table: its properties, its grid, the header row
      when there is a heading, then the content rows; each of those parts
      was made without error. */
  lemma {:induction false} TableChildren(contents: seq<seq<Cell>>, heading: bool, colw: seq<int>, cwunit: string, tblw: int,
                                      twunit: string, borders: map<string, map<string, string>>, celstyle: seq<map<string, string>>)
    ensures var t := Table(contents, heading, colw, cwunit, tblw, twunit, borders, celstyle);
            t.Ok? ==>
              && contents != []
              && Grid(|contents[0]|, colw).Ok?
              && (heading ==> HeaderRow(contents[0], colw, cwunit).Ok?)
              && ContentRows(contents[ContentStart(heading, contents[0])..], colw, cwunit, celstyle).Ok?
              && t.value.tag == Qualified("w", "tbl")
              && t.value.children ==
                   [TableProps(tblw, twunit, borders), Grid(|contents[0]|, colw).value] +
                   (if heading then [HeaderRow(contents[0], colw, cwunit).value] else []) +
                   ContentRows(contents[ContentStart(heading, contents[0])..], colw, cwunit, celstyle).value
  {
    var t := Table(contents, heading, colw, cwunit, tblw, twunit, borders, celstyle);
    if t.Ok? {
      var grid := Grid(|contents[0]|, colw);
      var header := HeaderRow(contents[0], colw, cwunit);
      var rows := ContentRows(contents[ContentStart(heading, contents[0])..], colw, cwunit, celstyle);
      assert grid.Ok? && (heading ==> header.Ok?) && rows.Ok?;
      var hs := if heading then [header.value] else [];
      assert t.value.children == [TableProps(tblw, twunit, borders), grid.value] + hs + rows.value;
    }
  }

  /** Read back by position: the properties, the grid, the header row when
      there is a heading, and the content rows after them. */
  lemma {:induction false} TableShape(contents: seq<seq<Cell>>, heading: bool, colw: seq<int>, cwunit: string, tblw: int,
                                      twunit: string, borders: map<string, map<string, string>>, celstyle: seq<map<string, string>>)
    ensures var t := Table(contents, heading, colw, cwunit, tblw, twunit, borders, celstyle);
            t.Ok? ==>
              var h := if heading then 1 else 0;
              && contents != []
              && |t.value.children| >= 2 + h
              && t.value.children[0] == TableProps(tblw, twunit, borders)
              && Grid(|contents[0]|, colw) == Ok(t.value.children[1])
              && (heading ==> HeaderRow(contents[0], colw, cwunit) == Ok(t.value.children[2]))
              && ContentRows(contents[ContentStart(heading, contents[0])..], colw, cwunit, celstyle) == Ok(t.value.children[2 + h..])
  {
    TableChildren(contents, heading, colw, cwunit, tblw, twunit, borders, celstyle);
    var t := Table(contents, heading, colw, cwunit, tblw, twunit, borders, celstyle);
    if t.Ok? {
      var rows := ContentRows(contents[ContentStart(heading, contents[0])..], colw, cwunit, celstyle).value;
      var hs := if heading then [HeaderRow(contents[0], colw, cwunit).value] else [];
      TwoThenParts(TableProps(tblw, twunit, borders), Grid(|contents[0]|, colw).value, hs, rows);
    }
  }

  /** Where the parts of `[a, b] + hs + rest` sit. */
  lemma {:induction false} TwoThenParts<T>(a: T, b: T, hs: seq<T>, rest: seq<T>)
    ensures var c := [a, b] + hs + rest;
            && |c| == 2 + |hs| + |rest| && c[0] == a && c[1] == b
            && (|hs| > 0 ==> c[2] == hs[0])
            && c[2 + |hs|..] == rest
  {
    var c := [a, b] + hs + rest;
    assert c[2 + |hs|..] == rest;
  }

  /** The content rows from `start` on are made exactly when each of those
      rows fits. */
  lemma {:induction false} ContentRowsFrom(contents: seq<seq<Cell>>, start: nat, colw: seq<int>, cwunit: string,
                                           celstyle: seq<map<string, string>>)
    requires start <= |contents|
    ensures ContentRows(contents[start..], colw, cwunit, celstyle).Ok? <==>
              forall k :: start <= k < |contents| ==> ContentRowFits(contents[k], colw, celstyle)
  {
    var rest := contents[start..];
    ContentRowsEach(rest, colw, cwunit, celstyle);
    forall k | 0 <= k < |rest|
      ensures ContentRow(rest[k], colw, cwunit, celstyle).Ok? <==> ContentRowFits(rest[k], colw, celstyle)
    {
      ContentRowBuilds(rest[k], colw, cwunit, celstyle);
    }
    assert forall k :: start <= k < |contents| ==> contents[k] == rest[k - start];
  }

  /** `kids` holds, from `offset` on and nothing after, the content row of
      each row of `contents` from `start` on, in order. */
  predicate RowsAt(contents: seq<seq<Cell>>, start: nat, colw: seq<int>, cwunit: string,
                   celstyle: seq<map<string, string>>, kids: seq<Node>, offset: nat)
  {
    && start <= |contents|
    && |kids| == offset + |contents| - start
    && forall k :: start <= k < |contents| ==>
         ContentRow(contents[k], colw, cwunit, celstyle) == Ok(kids[offset + k - start])
  }

  /** When the content rows from `start` on are the nodes of `kids` after
      `offset`, each row's node sits at its own position there. */
  lemma {:induction false} ContentRowsAt(contents: seq<seq<Cell>>, start: nat, colw: seq<int>, cwunit: string,
                                         celstyle: seq<map<string, string>>, kids: seq<Node>, offset: nat)
    requires start <= |contents| && offset <= |kids|
    requires ContentRows(contents[start..], colw, cwunit, celstyle) == Ok(kids[offset..])
    ensures RowsAt(contents, start, colw, cwunit, celstyle, kids, offset)
  {
    var rest := contents[start..];
    var rows := kids[offset..];
    ContentRowsEach(rest, colw, cwunit, celstyle);
    forall k | start <= k < |contents|
      ensures ContentRow(contents[k], colw, cwunit, celstyle) == Ok(kids[offset + k - start])
    {
      assert contents[k] == rest[k - start];
      assert kids[offset + k - start] == rows[k - start];
    }
  }

  /** The grid, the header row when there is a heading, and the content
      rows of a non-empty table are made without error. */
  predicate TablePartsBuild(contents: seq<seq<Cell>>, heading: bool, colw: seq<int>, cwunit: string,
                            celstyle: seq<map<string, string>>)
    requires contents != []
  {
    && Grid(|contents[0]|, colw).Ok?
    && (heading ==> HeaderRow(contents[0], colw, cwunit).Ok?)
    && ContentRows(contents[ContentStart(heading, contents[0])..], colw, cwunit, celstyle).Ok?
  }

  /** A table is made exactly when the contents are not empty and its grid,
      its header row when there is a heading, and its content rows are. */
  lemma {:induction false} TableOkParts(contents: seq<seq<Cell>>, heading: bool, colw: seq<int>, cwunit: string, tblw: int,
                                      twunit: string, borders: map<string, map<string, string>>, celstyle: seq<map<string, string>>)
    ensures Table(contents, heading, colw, cwunit, tblw, twunit, borders, celstyle).Ok? <==>
              && contents != []
              && TablePartsBuild(contents, heading, colw, cwunit, celstyle)
  {
    if contents != [] {
      var grid := Grid(|contents[0]|, colw);
      var header := HeaderRow(contents[0], colw, cwunit);
      var rows := ContentRows(contents[ContentStart(heading, contents[0])..], colw, cwunit, celstyle);
      if grid.Ok? && (heading ==> header.Ok?) && rows.Ok? {
        assert Table(contents, heading, colw, cwunit, tblw, twunit, borders, celstyle).Ok?;
      }
    }
  }

  /** The parts of a non-empty table are made exactly when they fit. */
  lemma {:induction false} TablePartsFit(contents: seq<seq<Cell>>, heading: bool, colw: seq<int>, cwunit: string,
                                         celstyle: seq<map<string, string>>)
    requires contents != []
    ensures TablePartsBuild(contents, heading, colw, cwunit, celstyle) <==> TableFits(contents, heading, colw, celstyle)
  {
    GridShape(|contents[0]|, colw);
    HeaderRowBuilds(contents[0], colw, cwunit);
    ContentRowsFrom(contents, ContentStart(heading, contents[0]), colw, cwunit, celstyle);
  }

  /** A table can be made exactly when the contents are not empty and every
      part of the table can be made. */
  lemma {:induction false} TableSucceeds(contents: seq<seq<Cell>>, heading: bool, colw: seq<int>, cwunit: string, tblw: int,
                                      twunit: string, borders: map<string, map<string, string>>, celstyle: seq<map<string, string>>)
    ensures Table(contents, heading, colw, cwunit, tblw, twunit, borders, celstyle).Ok? <==> contents != [] && TableFits(contents, heading, colw, celstyle)
  {
    TableOkParts(contents, heading, colw, cwunit, tblw, twunit, borders, celstyle);
    if contents != [] {
      TablePartsFit(contents, heading, colw, cwunit, celstyle);
    }
  }

  /** After the header row, a table holds the content row of each row from
      the first content row on, in order, and nothing else. */
  lemma {:induction false} TableRows(contents: seq<seq<Cell>>, heading: bool, colw: seq<int>, cwunit: string, tblw: int,
                                     twunit: string, borders: map<string, map<string, string>>, celstyle: seq<map<string, string>>)
    ensures var t := Table(contents, heading, colw, cwunit, tblw, twunit, borders, celstyle);
            t.Ok? ==>
              && contents != []
              && RowsAt(contents, ContentStart(heading, contents[0]), colw, cwunit, celstyle,
                        t.value.children, 2 + if heading then 1 else 0)
  {
    TableShape(contents, heading, colw, cwunit, tblw, twunit, borders, celstyle);
    var t := Table(contents, heading, colw, cwunit, tblw, twunit, borders, celstyle);
    if t.Ok? {
      ContentRowsAt(contents, ContentStart(heading, contents[0]), colw, cwunit, celstyle,
                    t.value.children, 2 + if heading then 1 else 0);
    }
  }

  /** With a heading, the first row is the header row and the content rows
      start at the second row, unless the last cell of the first row is an
      empty list: then the first row is emitted again as the first content
      row. */
  lemma {:induction false} TableHeadingRow(contents: seq<seq<Cell>>, colw: seq<int>, cwunit: string, tblw: int,
                                           twunit: string, borders: map<string, map<string, string>>, celstyle: seq<map<string, string>>)
    ensures var t := Table(contents, true, colw, cwunit, tblw, twunit, borders, celstyle);
            t.Ok? ==>
              && contents != []
              && (StillHeading(contents[0]) ==>
                    && |t.value.children| == 2 + |contents|
                    && (|contents| > 1 ==> ContentRow(contents[1], colw, cwunit, celstyle) == Ok(t.value.children[3])))
              && (!StillHeading(contents[0]) ==>
                    && |t.value.children| == 3 + |contents|
                    && ContentRow(contents[0], colw, cwunit, celstyle) == Ok(t.value.children[3]))
  {
    TableRows(contents, true, colw, cwunit, tblw, twunit, borders, celstyle);
    var t := Table(contents, true, colw, cwunit, tblw, twunit, borders, celstyle);
    if t.Ok? {
      var kids := t.value.children;
      if StillHeading(contents[0]) {
        assert ContentStart(true, contents[0]) == 1;
        if |contents| > 1 {
          assert ContentRow(contents[1], colw, cwunit, celstyle) == Ok(kids[3 + 1 - 1]);
        }
      } else {
        assert ContentStart(true, contents[0]) == 0;
        assert ContentRow(contents[0], colw, cwunit, celstyle) == Ok(kids[3 + 0 - 0]);
      }
    }
  }

  // ---------------------------------------------------------------------
  // picture
  // ---------------------------------------------------------------------

  /** English Metric Units per screen pixel. */
  const EMU_PER_PIXEL: int := 12667

  /** `str(int(flag))`. */
  function Flag(b: bool): string
  {
    if b then "1" else "0"
  }

  /** The pixel size of the picture: the given width and height when both
      are given (0 stands for None, which the code treats alike), otherwise
      the size the image library reads from the file, which fails when the
      file cannot be opened. */
  function PixelSize(picname: string, pixelWidth: int, pixelHeight: int, imageSize: Option<(int, int)>): (r: Result<(int, int)>)
    ensures pixelWidth != 0 && pixelHeight != 0 ==> r == Ok((pixelWidth, pixelHeight))
    ensures (pixelWidth == 0 || pixelHeight == 0) && imageSize.Some? ==> r == Ok(imageSize.value)
    ensures r.Err? <==> (pixelWidth == 0 || pixelHeight == 0) && imageSize.None?
    ensures r.Err? ==> r.error == IOError(picname)
  {
    if pixelWidth != 0 && pixelHeight != 0 then Ok((pixelWidth, pixelHeight))
    else if imageSize.Some? then Ok(imageSize.value)
    else Err(IOError(picname))
  }

  /** `make_element('blip', nsprefix='a', attrnsprefix='r',
      attributes={'embed': relId})`: the one attribute lives in the
      relationships namespace. */
  function Blip(relId: string): (n: Node)
    ensures n.tag == Qualified("a", "blip") && n.children == []
  {
    Node(Qualified("a", "blip"), map[], map[Qualified("r", "embed") := relId], None, [])
  }

  /** The blip is the element the factory makes, so it refers to the
      relationship it was given under r:embed and carries nothing else. */
  lemma {:induction false} BlipIsMadeElement(relId: string)
    ensures MakeElement("blip", "", One("a"), map["embed" := relId], "r") == Ok(Blip(relId))
  {
    var ns := "{" + NSPREFIXES["r"] + "}";
    QualifySingle(ns, "embed", relId);
    assert ns + "embed" == Qualified("r", "embed");
  }

  /** How the image fills the picture: the blip, an empty source rectangle
      and a stretch to the full rectangle. */
  function BlipFill(relId: string): Node
  {
    Extend(Elem("pic", "blipFill", map[]),
           [ Blip(relId), Elem("a", "srcRect", map[]),
             Extend(Elem("a", "stretch", map[]), [Elem("a", "fillRect", map[])]) ])
  }

  /** The non-visual picture properties: id 0, name "Picture 1", the file
      name as description, and the two lock flags. */
  function NvPicPr(picname: string, noChangeAspect: bool, noChangeArrowheads: bool): Node
  {
    Extend(Elem("pic", "nvPicPr", map[]),
           [ Elem("pic", "cNvPr", map["id" := "0", "name" := "Picture 1", "descr" := picname]),
             Extend(Elem("pic", "cNvPicPr", map[]),
                    [Elem("a", "picLocks", map["noChangeAspect" := Flag(noChangeAspect),
                                               "noChangeArrowheads" := Flag(noChangeArrowheads)])]) ])
  }

  /** The shape properties: offset 0,0, extent cx by cy, a rectangle. */
  function SpPr(cx: string, cy: string): Node
  {
    Extend(Elem("pic", "spPr", map["bwMode" := "auto"]),
           [ Extend(Elem("a", "xfrm", map[]),
                    [Elem("a", "off", map["x" := "0", "y" := "0"]), Elem("a", "ext", map["cx" := cx, "cy" := cy])]),
             Extend(Elem("a", "prstGeom", map["prst" := "rect"]), [Elem("a", "avLst", map[])]) ])
  }

  const PICTURE_URI: string := "http://schemas.openxmlformats.org/drawingml/2006/picture"

  /** The inline drawing: extent, effect extent, document properties,
      frame properties and the graphic holding the picture. */
  function Inline(picname: string, picdescription: string, picid: string, relId: string, cx: string, cy: string,
                  noChangeAspect: bool, noChangeArrowheads: bool): Node
  {
    var pic := Extend(Elem("pic", "pic", map[]),
                      [NvPicPr(picname, noChangeAspect, noChangeArrowheads), BlipFill(relId), SpPr(cx, cy)]);
    var graphic := Extend(Elem("a", "graphic", map[]), [Extend(Elem("a", "graphicData", map["uri" := PICTURE_URI]), [pic])]);
    Extend(Elem("wp", "inline", map["distT" := "0", "distB" := "0", "distL" := "0", "distR" := "0"]),
           [ Elem("wp", "extent", map["cx" := cx, "cy" := cy]),
             Elem("wp", "effectExtent", map["l" := "25400", "t" := "0", "r" := "0", "b" := "0"]),
             Elem("wp", "docPr", map["id" := picid, "name" := "Picture 1", "descr" := picdescription]),
             Extend(Elem("wp", "cNvGraphicFramePr", map[]), [Elem("a", "graphicFrameLocks", map["noChangeAspect" := "1"])]),
             graphic ])
  }

  /** The paragraph `picture` returns for a relationship table of n entries
      and a size of width by height pixels: one run holding one drawing. */
  function PictureParagraph(picname: string, picdescription: string, n: nat, width: int, height: int,
                            noChangeAspect: bool, noChangeArrowheads: bool): Node
  {
    var cx := IntToString(width * EMU_PER_PIXEL);
    var cy := IntToString(height * EMU_PER_PIXEL);
    var inline := Inline(picname, picdescription, NatToString(n + 1), RelId(n + 1), cx, cy, noChangeAspect, noChangeArrowheads);
    Extend(W("p", map[]), [Extend(W("r", map[]), [Extend(W("drawing", map[]), [inline])])])
  }

  /** The inline drawing of a picture paragraph. */
  function InlineOf(p: Node): Option<Node>
  {
    if |p.children| == 1 && |p.children[0].children| == 1 && |p.children[0].children[0].children| == 1
    then Some(p.children[0].children[0].children[0])
    else None
  }

  /** The blip of an inline drawing, down graphic, graphicData, pic and
      blipFill. */
  function BlipOf(inline: Node): Option<Node>
  {
    if |inline.children| == 5 && |inline.children[4].children| == 1 && |inline.children[4].children[0].children| == 1
       && |inline.children[4].children[0].children[0].children| == 3
       && |inline.children[4].children[0].children[0].children[1].children| == 3
    then Some(inline.children[4].children[0].children[0].children[1].children[0])
    else None
  }

  /** A picture paragraph is w:p, w:r, w:drawing around one wp:inline. */
  lemma {:induction false} PictureFrame(picname: string, picdescription: string, n: nat, width: int, height: int,
                                        noChangeAspect: bool, noChangeArrowheads: bool)
    ensures var p := PictureParagraph(picname, picdescription, n, width, height, noChangeAspect, noChangeArrowheads);
            && p.tag == Qualified("w", "p")
            && p.children[0].tag == Qualified("w", "r")
            && p.children[0].children[0].tag == Qualified("w", "drawing")
            && InlineOf(p) == Some(Inline(picname, picdescription, NatToString(n + 1), RelId(n + 1),
                                          IntToString(width * EMU_PER_PIXEL), IntToString(height * EMU_PER_PIXEL),
                                          noChangeAspect, noChangeArrowheads))
  {
  }

  /** The inline drawing's extent is the size given. */
  lemma {:induction false} InlineExtent(picname: string, picdescription: string, picid: string, relId: string, cx: string, cy: string,
                                        noChangeAspect: bool, noChangeArrowheads: bool)
    ensures var inline := Inline(picname, picdescription, picid, relId, cx, cy, noChangeAspect, noChangeArrowheads);
            && inline.tag == Qualified("wp", "inline")
            && |inline.children| == 5
            && inline.children[0].tag == Qualified("wp", "extent")
            && Get(inline.children[0], "cx") == Some(cx) && Get(inline.children[0], "cy") == Some(cy)
  {
    var inline := Inline(picname, picdescription, picid, relId, cx, cy, noChangeAspect, noChangeArrowheads);
    var extent := map["cx" := cx, "cy" := cy];
    assert inline.children[0] == Elem("wp", "extent", extent);
  }

  /** The inline drawing's document properties carry the picture id and
      the description. */
  lemma {:induction false} InlineDocPr(picname: string, picdescription: string, picid: string, relId: string, cx: string, cy: string,
                                       noChangeAspect: bool, noChangeArrowheads: bool)
    ensures var inline := Inline(picname, picdescription, picid, relId, cx, cy, noChangeAspect, noChangeArrowheads);
            && |inline.children| == 5
            && inline.children[2].tag == Qualified("wp", "docPr")
            && Get(inline.children[2], "id") == Some(picid)
            && Get(inline.children[2], "descr") == Some(picdescription)
  {
    var inline := Inline(picname, picdescription, picid, relId, cx, cy, noChangeAspect, noChangeArrowheads);
    var docPr := map["id" := picid, "name" := "Picture 1", "descr" := picdescription];
    assert inline.children[2] == Elem("wp", "docPr", docPr);
  }

  /** Down its graphic, the inline drawing holds the blip of the
      relationship given. */
  lemma {:induction false} InlineBlip(picname: string, picdescription: string, picid: string, relId: string, cx: string, cy: string,
                                      noChangeAspect: bool, noChangeArrowheads: bool)
    ensures BlipOf(Inline(picname, picdescription, picid, relId, cx, cy, noChangeAspect, noChangeArrowheads)) == Some(Blip(relId))
  {
    var inline := Inline(picname, picdescription, picid, relId, cx, cy, noChangeAspect, noChangeArrowheads);
    var graphic := inline.children[4];
    var pic := graphic.children[0].children[0];
    assert pic.children[1] == BlipFill(relId);
  }

  /** The picture's lock flags and its shape extent. */
  lemma {:induction false} PicShape(picname: string, noChangeAspect: bool, noChangeArrowheads: bool, cx: string, cy: string)
    ensures var locks := NvPicPr(picname, noChangeAspect, noChangeArrowheads).children[1].children[0];
            && locks.tag == Qualified("a", "picLocks")
            && Get(locks, "noChangeAspect") == Some(if noChangeAspect then "1" else "0")
            && Get(locks, "noChangeArrowheads") == Some(if noChangeArrowheads then "1" else "0")
    ensures var ext := SpPr(cx, cy).children[0].children[1];
            ext.tag == Qualified("a", "ext") && Get(ext, "cx") == Some(cx) && Get(ext, "cy") == Some(cy)
  {
  }

  /** The picture of the (n+1)-th relationship embeds exactly that
      relationship's id, takes n+1 as its drawing id, and spans
      12667 EMU per pixel in each direction. */
  lemma {:induction false} PictureIds(picname: string, picdescription: string, n: nat, width: int, height: int,
                                      noChangeAspect: bool, noChangeArrowheads: bool)
    ensures var p := PictureParagraph(picname, picdescription, n, width, height, noChangeAspect, noChangeArrowheads);
            && InlineOf(p).Some?
            && BlipOf(InlineOf(p).value) == Some(Blip(RelId(n + 1)))
            && Get(BlipOf(InlineOf(p).value).value, Qualified("r", "embed")) == ImageRelationship(n, picname).id
            && Get(InlineOf(p).value.children[2], "id") == Some(NatToString(n + 1))
            && Get(InlineOf(p).value.children[0], "cx") == Some(IntToString(width * 12667))
            && Get(InlineOf(p).value.children[0], "cy") == Some(IntToString(height * 12667))
  {
    var cx := IntToString(width * EMU_PER_PIXEL);
    var cy := IntToString(height * EMU_PER_PIXEL);
    PictureFrame(picname, picdescription, n, width, height, noChangeAspect, noChangeArrowheads);
    InlineExtent(picname, picdescription, NatToString(n + 1), RelId(n + 1), cx, cy, noChangeAspect, noChangeArrowheads);
    InlineDocPr(picname, picdescription, NatToString(n + 1), RelId(n + 1), cx, cy, noChangeAspect, noChangeArrowheads);
    InlineBlip(picname, picdescription, NatToString(n + 1), RelId(n + 1), cx, cy, noChangeAspect, noChangeArrowheads);
  }

  /** Pictures added at different table lengths embed different ids. */
  lemma {:induction false} PictureIdsDiffer(picname: string, picname': string, m: nat, n: nat)
    requires m != n
    ensures ImageRelationship(m, picname).id != ImageRelationship(n, picname').id
  {
    if RelId(m + 1) == RelId(n + 1) {
      assert NatToString(m + 1) == RelId(m + 1)[3..];
      assert NatToString(n + 1) == RelId(n + 1)[3..];
      NatToStringInjective(m + 1, n + 1);
    }
  }

  /** `picture(document, picname, picdescription, pixelwidth, pixelheight,
      nochangeaspect, nochangearrowheads)`. `absPath` is what
      `os.path.abspath(picname)` returns and `imageSize` what the image
      library reads from the file (None when it cannot open it). The media
      entry is queued before the size is read, so it stays queued when
      that fails; the relationship is added only once the size is known. */
  method Picture(doc: Document.DocxDocument, picname: string, picdescription: string, pixelWidth: int, pixelHeight: int,
                 noChangeAspect: bool, noChangeArrowheads: bool, absPath: string, imageSize: Option<(int, int)>)
    returns (r: Result<Node>)
    modifies doc.wordRelationships
    ensures doc.wordRelationships.toCopy == old(doc.wordRelationships.toCopy) + [MediaCopy(picname, absPath)]
    ensures var size := PixelSize(picname, pixelWidth, pixelHeight, imageSize);
            var n := |old(doc.wordRelationships.relationshiplist)|;
            && (size.Err? ==> r == Err(size.error) &&
                              doc.wordRelationships.relationshiplist == old(doc.wordRelationships.relationshiplist))
            && (size.Ok? ==>
                  && doc.wordRelationships.relationshiplist
                       == old(doc.wordRelationships.relationshiplist) + [ImageRelationship(n, picname)]
                  && r == Ok(PictureParagraph(picname, picdescription, n, size.value.0, size.value.1,
                                              noChangeAspect, noChangeArrowheads)))
  {
    var rels := doc.wordRelationships;
    rels.toCopy := rels.toCopy + [MediaCopy(picname, absPath)];
    var size := PixelSize(picname, pixelWidth, pixelHeight, imageSize);
    if size.Err? {
      return Err(size.error);
    }
    var n := |rels.relationshiplist|;
    rels.relationshiplist := rels.relationshiplist + [ImageRelationship(n, picname)];
    r := Ok(PictureParagraph(picname, picdescription, n, size.value.0, size.value.1, noChangeAspect, noChangeArrowheads));
  }
}
