/** The element factory: one namespace-qualified element with attributes and
    text, built from a prefix of the namespace table. */
module Utils {
  import opened Wrappers
  import opened XmlTree
  import opened Namespaces

  /** The `nsprefix` argument: a single prefix (the empty string stands for
      None, which Python treats the same way), or a list of prefixes. */
  datatype Prefix = One(name: string) | Many(names: seq<string>)

  /** The first prefix of a list that the namespace table does not know. */
  function FirstUnknown(names: seq<string>): (r: Option<string>)
    ensures r.None? <==> forall i :: 0 <= i < |names| ==> names[i] in NSPREFIXES
    ensures r.Some? ==> r.value in names && r.value !in NSPREFIXES
  {
    if names == [] then None
    else if names[0] !in NSPREFIXES then Some(names[0])
    else FirstUnknown(names[1..])
  }

  /** `attrs` holds exactly the attributes of `given`, each name prefixed with
      the namespace `ns` and with its given value. */
  ghost predicate QualifiedAs(attrs: map<string, string>, ns: string, given: map<string, string>)
  {
    && (forall k :: k in given ==> ns + k in attrs && attrs[ns + k] == given[k])
    && (forall a :: a in attrs ==>
          |ns| <= |a| && a[..|ns|] == ns && a[|ns|..] in given && attrs[a] == given[a[|ns|..]])
  }

  /** Every attribute name of `given`, prefixed with `ns`. */
  function QualifyAttributes(ns: string, given: map<string, string>): map<string, string>
  {
    forall k1, k2 | k1 in given && k2 in given && ns + k1 == ns + k2 ensures k1 == k2 {
      assert k1 == (ns + k1)[|ns|..] && k2 == (ns + k2)[|ns|..];
    }
    map k | k in given :: ns + k := given[k]
  }

  /** Prefixing is injective, so every given attribute keeps its value under
      its prefixed name and nothing else is set. */
  lemma {:induction false} QualifyAttributesQualified(ns: string, given: map<string, string>)
    ensures QualifiedAs(QualifyAttributes(ns, given), ns, given)
  {
    var q := QualifyAttributes(ns, given);
    forall k | k in given ensures ns + k in q && q[ns + k] == given[k] {
      forall j | j in given && ns + j == ns + k ensures j == k {
        assert j == (ns + j)[|ns|..] && k == (ns + k)[|ns|..];
      }
    }
    forall a | a in q
      ensures |ns| <= |a| && a[..|ns|] == ns && a[|ns|..] in given && q[a] == given[a[|ns|..]]
    {
      var k :| k in given && a == ns + k;
      assert a[|ns|..] == k;
    }
  }

  /** A single attribute keeps its value under its prefixed name. */
  lemma {:induction false} QualifySingle(ns: string, k: string, v: string)
    ensures QualifyAttributes(ns, map[k := v]) == map[ns + k := v]
  {
    var q := QualifyAttributes(ns, map[k := v]);
    QualifyAttributesQualified(ns, map[k := v]);
    forall a | a in q ensures a == ns + k {
      assert a == a[..|ns|] + a[|ns|..];
    }
    assert q.Keys == {ns + k};
  }

  /** The prefix a `nsprefix` argument puts on the tag, with the namespace
      declarations a list of prefixes brings, or the lookup that fails. */
  function ResolvePrefix(nsprefix: Prefix): (r: Result<(string, map<string, string>)>)
    ensures nsprefix.Many? && FirstUnknown(nsprefix.names).Some? ==>
              r == Err(KeyError(FirstUnknown(nsprefix.names).value))
    ensures nsprefix == Many([]) ==> r == Err(IndexError)
    ensures nsprefix.One? && nsprefix.name != "" && nsprefix.name !in NSPREFIXES ==>
              r == Err(KeyError(nsprefix.name))
    ensures r.Err? <==>
              (nsprefix.Many? && (FirstUnknown(nsprefix.names).Some? || nsprefix.names == [])) ||
              (nsprefix.One? && nsprefix.name != "" && nsprefix.name !in NSPREFIXES)
    ensures r.Ok? && nsprefix.One? ==> r.value == (nsprefix.name, map[])
    ensures r.Ok? && nsprefix.Many? ==>
              nsprefix.names != [] && r.value.0 == nsprefix.names[0] &&
              (forall p :: p in nsprefix.names ==> p in r.value.1 && r.value.1[p] == NSPREFIXES[p]) &&
              (forall p :: p in r.value.1 ==> p in nsprefix.names)
    ensures r.Ok? ==> r.value.0 == "" || r.value.0 in NSPREFIXES
  {
    match nsprefix
    case One(p) =>
      if p != "" && p !in NSPREFIXES then Err(KeyError(p)) else Ok((p, map[]))
    case Many(names) =>
      match FirstUnknown(names)
      case Some(p) => Err(KeyError(p))
      case None =>
        if names == [] then Err(IndexError)
        else Ok((names[0], map p | p in names :: NSPREFIXES[p]))
  }

  /** Python's `make_element`. `tagtext` and `attrnsprefix` use "" for None
      and an empty map stands for no attributes: the code tests each of them
      for truth, so None and the empty value behave alike. */
  function MakeElement(tagname: string, tagtext: string, nsprefix: Prefix,
                       attributes: map<string, string>, attrnsprefix: string): (r: Result<Node>)
    // the tag: the prefix's namespace (the first of a list), or none for the empty prefix
    ensures ResolvePrefix(nsprefix).Err? ==> r == Err(ResolvePrefix(nsprefix).error)
    ensures r.Ok? ==> ResolvePrefix(nsprefix).Ok?
    ensures r.Ok? ==> r.value.nsmap == ResolvePrefix(nsprefix).value.1
    ensures r.Ok? ==> var p := ResolvePrefix(nsprefix).value.0;
              r.value.tag == if p == "" then tagname else Qualified(p, tagname)
    ensures r.Ok? ==> r.value.children == []
    // the text: set only when non-empty
    ensures r.Ok? ==> (r.value.text.Some? <==> tagtext != "")
    ensures r.Ok? && tagtext != "" ==> r.value.text == Some(tagtext)
    // attributes: the explicit attribute prefix, else the tag's namespace under 'w', else none
    ensures ResolvePrefix(nsprefix).Ok? && attributes != map[] && attrnsprefix != "" && attrnsprefix !in NSPREFIXES ==>
              r == Err(KeyError(attrnsprefix))
    ensures r.Ok? && attrnsprefix != "" && attributes != map[] ==>
              QualifiedAs(r.value.attrs, "{" + NSPREFIXES[attrnsprefix] + "}", attributes)
    ensures r.Ok? && attrnsprefix == "" && ResolvePrefix(nsprefix).value.0 == "w" ==>
              QualifiedAs(r.value.attrs, Qualified("w", ""), attributes)
    ensures r.Ok? && attrnsprefix == "" && ResolvePrefix(nsprefix).value.0 != "w" ==>
              r.value.attrs == attributes
    // nothing else fails
    ensures r.Err? <==>
              ResolvePrefix(nsprefix).Err? ||
              (attributes != map[] && attrnsprefix != "" && attrnsprefix !in NSPREFIXES)
  {
    var resolved := ResolvePrefix(nsprefix);
    if resolved.Err? then Err(resolved.error)
    else
      var prefix := resolved.value.0;
      var namespace := if prefix != "" then "{" + NSPREFIXES[prefix] + "}" else "";
      assert prefix == "w" ==> namespace == Qualified("w", "");
      if attributes != map[] && attrnsprefix != "" && attrnsprefix !in NSPREFIXES then
        Err(KeyError(attrnsprefix))
      else
        var attrs :=
          if attributes == map[] then map[]
          else if attrnsprefix != "" then
            var ans := "{" + NSPREFIXES[attrnsprefix] + "}";
            QualifyAttributesQualified(ans, attributes);
            QualifyAttributes(ans, attributes)
          else if prefix == "w" then
            QualifyAttributesQualified(namespace, attributes);
            QualifyAttributes(namespace, attributes)
          else attributes;
        Ok(Node(namespace + tagname, resolved.value.1, attrs,
                if tagtext != "" then Some(tagtext) else None, []))
  }

  /** With no prefix and no attribute prefix, the element is the bare tag
      with the attributes as given. */
  lemma {:induction false} MakePlainElement(tagname: string, tagtext: string, attributes: map<string, string>)
    ensures MakeElement(tagname, tagtext, One(""), attributes, "")
         == Ok(Node(tagname, map[], attributes, if tagtext != "" then Some(tagtext) else None, []))
  {
  }

  /** An unknown prefix, single or anywhere in a list, fails the table lookup. */
  lemma {:induction false} UnknownPrefixFails(tagname: string, tagtext: string, prefix: string,
                           attributes: map<string, string>, attrnsprefix: string)
    requires prefix != "" && prefix !in NSPREFIXES
    ensures MakeElement(tagname, tagtext, One(prefix), attributes, attrnsprefix) == Err(KeyError(prefix))
    ensures forall names :: prefix in names ==> MakeElement(tagname, tagtext, Many(names), attributes, attrnsprefix).Err?
  {
    forall names | prefix in names
      ensures MakeElement(tagname, tagtext, Many(names), attributes, attrnsprefix).Err?
    {
      assert FirstUnknown(names).Some?;
    }
  }
}
