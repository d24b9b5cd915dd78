# docx: a verified model of the document core

This project models the core of the `docx` package, a Python library that
builds and edits Word (WordprocessingML) documents. Its parts are:

- **The element factory** `make_element`. It turns a tag, a namespace prefix
  (or a list of prefixes), attributes and text into an lxml element, with
  namespaces taken from the package-wide `NSPREFIXES` table.
- **The fragment builders.** These build page and section breaks,
  paragraphs with styled runs, headings, tables (borders, grid, header row
  and content rows) and the inline drawing of a picture, including the
  relationship a picture adds and the media file it queues.
- **The package manifests and property objects.** These are the relationship
  table (`WordRelationships`), the content-type registry (`ContentTypes`),
  the core and application properties, and the web settings part.
- **The document object** `DocxDocument`. It covers:
  - building a fresh document, or loading one from a template archive;
  - `search`, `replace`, `add`, `append` and `get_text` on its tree;
  - `save`, which writes the generated parts, the copied template parts, the
    queued media and the document part to a new archive, in that order.
- **`advReplace`**, the search and replace that finds a match spread over
  up to `bs` consecutive text runs. It rewrites the first run the match
  starts in and blanks the others.

XML trees are values (`XmlTree.Node`), with Clark-notation tags as lxml
writes them (`{uri}local`). Python exceptions become `Wrappers.Error`
values inside a `Result`. The state the source changes in place is kept in
place:

- the document, the manifests and the output archive are classes whose
  methods update their fields;
- `advReplace` rewrites an array of the document's elements in document
  order.

Each method is proved against a function that specifies it. The
properties the code promises are proved about those functions as lemmas.
They include:

- round trips of the two manifests and of the keyword list;
- the order and exact contents of every built element, and when a builder
  fails;
- which archive entries a save writes, in which order, and where it stops
  when something fails;
- that `advReplace` with a one-run window is the leaf-by-leaf `replace`,
  that it only ever changes non-empty `w:t` runs, that it changes nothing
  when the pattern does not occur in the runs' joined text, and the three
  worked examples of its documentation.

The modules follow the package's files:

| file | module |
|---|---|
| `wrappers.dfy` | Option, Result and the exceptions |
| `strings.dfy` | literal find and replace-all, join and split, base names, decimal numerals |
| `xml_tree.dfy` | elements, `iter()` |
| `namespaces.dfy` | `NSPREFIXES`, `FILES_TO_IGNORE` |
| `utils.dfy` | `make_element` |
| `meta.dfy` | `meta.py` |
| `adv_replace.dfy` | `advReplace` |
| `adv_replace_examples.dfy` | the worked examples of `advReplace`'s documentation |
| `document.dfy` | `document.py` |
| `elements.dfy` | `elements.py` |

Regular expressions are modelled as literal patterns (see "Left out").

## Model

| member | source | states |
|---|---|---|
| Strings.ConcatAppend | docx/__init__.py:141-143 | The text of a block of runs is the concatenation of its runs' texts; joining two lists of runs concatenates their texts. |
| Strings.Find | docx/document.py:45 | A found offset is an occurrence with no occurrence before it. No offset means the pattern occurs nowhere. |
| Strings.ReplaceAllNoMatch | docx/document.py:55-57 | Substituting a non-empty pattern that does not occur leaves the text unchanged. |
| Strings.ReplaceAllFromStart | docx/document.py:57 | Substitution keeps the text before the first occurrence, replaces that occurrence, and resumes scanning right after it. |
| Strings.ReplaceAllUpTo | docx/document.py:57 | From any offset up to the first occurrence, substitution copies the text unchanged and then emits the replacement. |
| Strings.ReplaceAllSelf | docx/document.py:57 | Replacing every occurrence of a pattern by itself gives back the text. |
| Strings.SplitJoin | docx/meta.py:20 | Splitting the comma-joined keywords on commas gives back the keywords, when none of them contains a comma. |
| Strings.BasenameIsLastSegment | docx/document.py:137 | `os.path.basename` gives the part after the last '/', or the whole path when it has none. |
| Strings.DecimalValueOfNatToString | docx/elements.py:270-271 | The numeral `str(n)` reads back as n. |
| Strings.NatToStringInjective | docx/elements.py:270-271 | Different numbers give different numerals, so different relationship ids. |
| XmlTree.Get | docx/meta.py:78 | `get` finds a value exactly when the attribute is present. |
| XmlTree.AppendChild | docx/document.py:68 | `append` adds the child last and changes nothing else about the parent. |
| XmlTree.Iter | docx/document.py:42 | `iter()` starts with the element itself. |
| XmlTree.IterAllAppend | docx/document.py:75 | Iterating two lists of elements is iterating one, then the other. |
| XmlTree.WithTag | docx/document.py:75-78 | The tag filter keeps only elements with that tag and never adds any. |
| XmlTree.WithTagMembers | docx/document.py:75-78 | An element is in the filtered list exactly when it is in the list and has the tag. |
| Utils.FirstUnknown | docx/utils.py:11-12 | The first prefix of a list that the table lacks is found exactly when some prefix is missing. |
| Utils.QualifyAttributesQualified | docx/utils.py:33-34 | Namespacing the attributes keeps every given value under its prefixed name and sets nothing else. |
| Utils.QualifySingle | docx/utils.py:33-34 | A single attribute is set under its namespaced name with its value. |
| Utils.ResolvePrefix | docx/utils.py:9-18 | A list of prefixes declares all of them and uses the first on the tag. An unknown prefix raises KeyError and an empty list raises IndexError; these are the only failures. |
| Utils.MakeElement | docx/utils.py:5-37 | The tag is namespaced by the prefix, or bare without one, and text is set only when non-empty. Attributes take the explicit attribute prefix, else the tag's namespace under 'w', else none. It fails exactly on an unknown prefix. |
| Utils.MakePlainElement | docx/utils.py:14-37 | Without any prefix the element has the bare tag and the attributes as given. |
| Utils.UnknownPrefixFails | docx/utils.py:9-15 | An unknown prefix, on its own or anywhere in a list, makes the factory fail. |
| Meta.DefaultRelationshipsShape | docx/meta.py:80-87 | The default table holds six complete entries, rId1 to rId6: numbering, styles, settings, webSettings, fontTable and theme, in that order. |
| Meta.SequentialIdsUnique | docx/meta.py:80-87 | In a table numbered rId1, rId2, … every identifier differs from every other. |
| Meta.ImageRelationship | docx/elements.py:270-275 | A picture added to a table of n entries gets id rId(n+1), the image type and the target media/&lt;name&gt;. |
| Meta.AppendImageKeepsSequential | docx/elements.py:270-275 | Adding a picture keeps a sequentially numbered table sequential, so its ids stay unique. |
| Meta.LoadedTableCanCollide | docx/elements.py:268-272 | For a loaded table that is not sequential, the id a picture gets can already be taken. |
| Meta.LoadRelationships | docx/meta.py:76-78 | Loading keeps one entry per manifest element, in order, with that element's Id, Type and Target. |
| Meta.ManifestElementsAreMade | docx/meta.py:97-152 | The Relationship, Override and Default elements are what the factory builds with no prefix, carrying exactly the given attributes. |
| Meta.RelationshipsXml | docx/meta.py:89-100 | Serialising succeeds exactly when every entry has all three fields. It then gives one Relationship element per entry, in order, with that entry's fields. |
| Meta.RelationshipsRoundTrip | docx/meta.py:76-100 | Loading a serialised table gives the table back. |
| Meta.LoadedRelationshipsReserialise | docx/meta.py:76-100 | Re-serialising a loaded manifest keeps every element's Id, Type and Target. |
| Meta.WordRelationships.constructor | docx/meta.py:72-87 | The media queue starts empty. The table is loaded from the manifest when one is given, else it is the default table. |
| Meta.WordRelationships.Xml | docx/meta.py:89-100 | The manifest of the current table loads back as that table. |
| Meta.DefaultContentTypesShape | docx/meta.py:113-124 | Every default registry entry has a part name and a type, and the main document part is registered with the document.main type. |
| Meta.DefaultContentTypesCount | docx/meta.py:113-124 | The default registry has exactly nine entries. |
| Meta.DefaultContentTypesXml | docx/meta.py:113-153 | The default registry serialises, in any enumeration order, to a Types root of 15 children: nine Overrides and six Defaults. |
| Meta.LoadContentTypesKeeps | docx/meta.py:106-112 | Loading keeps only Override children, keyed by PartName. A later Override for the same part wins. |
| Meta.OverrideElement | docx/meta.py:130-132 | An Override element is recognised as an Override and carries the part name and content type. |
| Meta.DefaultElement | docx/meta.py:143-152 | A Default element is never taken for an Override. |
| Meta.OverrideElements | docx/meta.py:129-132 | One Override per registry entry, in iteration order. |
| Meta.DefaultElements | docx/meta.py:134-152 | The six Default elements of the extension table, one per extension (see Left out on their order). |
| Meta.ContentTypesXml | docx/meta.py:126-153 | Serialising succeeds exactly when every entry is complete. It gives a Types root with one Override per entry in iteration order, then the six Defaults (see Left out on their order). |
| Meta.LoadOverridesExact | docx/meta.py:107-112 | Loading Overrides of registry entries keeps exactly those keys, each with the registry's type. |
| Meta.LoadIgnoresDefaults | docx/meta.py:110-112 | Elements that are not Overrides after the Overrides change nothing that is loaded. |
| Meta.LoadOverrideElements | docx/meta.py:106-132 | Loading the Overrides of a complete registry gives the registry back. |
| Meta.LoadOverridesAll | docx/meta.py:106-132 | Loading one Override per entry, in any enumeration order, restores the registry. |
| Meta.ContentTypesRoundTrip | docx/meta.py:106-153 | Loading a serialised registry gives the registry back, because the Defaults are skipped. |
| Meta.ContentTypes.constructor | docx/meta.py:106-124 | The registry is loaded from the manifest's Overrides when one is given, else it is the default registry. |
| Meta.CoreProperties.constructor | docx/meta.py:8-13 | The fields are kept as given. The last modifier defaults to the creator. |
| Meta.CoreProperties.KeywordsText | docx/meta.py:20 | The keywords text splits back into the keywords when none holds a comma. |
| Meta.AppProperties.constructor | docx/meta.py:39-41 | Application and version are kept as given. |
| Meta.AppProperties.Default | docx/meta.py:39-41 | The defaults are "Microsoft Word 12.0.0" and "12.000". |
| Meta.WebSettingsXml | docx/meta.py:161-165 | w:webSettings holds w:allowPNG, then w:doNotSaveAsSingleFile. |
| AdvReplace.HostText | docx/__init__.py:173-185 | The host run gets the block's text with every match replaced: by the string, or removed when elements are the replacement. |
| AdvReplace.TextsAt | docx/__init__.py:139-143 | The texts of the block's runs, in block order, with an absent text read as empty. |
| AdvReplace.Slide | docx/__init__.py:120-123 | The new run enters the window last, and the oldest leaves when the window would exceed bs. |
| AdvReplace.FirstSpanFromIsFirst | docx/__init__.py:131-148 | The nested loops find a matching block, and no block before it in loop order matches. Finding none means no later block matches. |
| AdvReplace.FirstSpanFromMatches | docx/__init__.py:131-148 | The block the loops stop at contains the pattern. |
| AdvReplace.FirstSpanIsFirst | docx/__init__.py:131-148 | The chosen block is the shortest, then leftmost, matching block. None is chosen only when no block matches. |
| AdvReplace.HostFrom | docx/__init__.py:166-170 | The host is the first run whose running length passes the match's start. |
| AdvReplace.RunningLength | docx/__init__.py:169 | Each run adds its length to the running length. |
| AdvReplace.HostOf | docx/__init__.py:166-170 | The host's running length passes the match start, and no host means the start lies past the block's text. |
| AdvReplace.Rewrite | docx/__init__.py:166-191 | Runs outside the block keep their text. The host gets the new text and every other block run is set to "". |
| AdvReplace.RewriteBlockShape | docx/__init__.py:166-191 | A block rewrite changes only the window's texts and moves the host only into the block. |
| AdvReplace.SearchShape | docx/__init__.py:130-191 | A window search changes only the window's texts and moves the host only into the window. |
| AdvReplace.RewriteBlockText | docx/__init__.py:166-191 | For a non-empty pattern one run becomes the host, and the rewritten block's texts concatenate to the host's new text. |
| AdvReplace.SearchNoMatch | docx/__init__.py:130-148 | A window whose concatenated texts do not contain the pattern is left as it was, with the host unchanged. |
| AdvReplace.ScanUpTo | docx/__init__.py:116-191 | After n elements the window holds increasing positions below n. |
| AdvReplace.ScanUpToUnvisited | docx/__init__.py:116-191 | Elements not yet visited keep the document's text. |
| AdvReplace.ScanWindow | docx/__init__.py:112-123 | The window never holds more than bs runs, and each is a w:t run with non-empty text. |
| AdvReplace.Scan | docx/__init__.py:116-192 | The scan keeps one text per element, and a host is always one of the elements. |
| AdvReplace.ScanChangesOnlyTextLeaves | docx/__init__.py:116-118 | Only w:t runs whose text was non-empty ever change. |
| AdvReplace.ScanWithoutWindow | docx/__init__.py:120-123 | With bs below 1 nothing is searched and nothing changes. |
| AdvReplace.ScanLeafByLeaf | docx/__init__.py:116-191 | With a one-run window, every element gets exactly the leaf-by-leaf replacement of its own text. |
| AdvReplace.LeafTextIsConcat | docx/__init__.py:116-143 | The text of the document's w:t runs read so far is the concatenation of their texts, in document order. |
| AdvReplace.WindowTextInLeafText | docx/__init__.py:120-143 | Whatever the window holds is a stretch of consecutive runs, so its text lies inside the text of all runs. |
| AdvReplace.ScanNoMatch | docx/__init__.py:116-192 | When the pattern does not occur in the concatenated text of the document's w:t runs, the scan changes nothing and names no host. |
| AdvReplaceExamples.ExampleAcrossTwoRuns | docx/__init__.py:83-85 | Runs 'Hel', 'lo,', ' world!' with 'Hello,' replaced by 'Hi!' and a window of three become 'Hi!', '', ' world!'. |
| AdvReplaceExamples.ExampleAcrossThreeRuns | docx/__init__.py:87-89 | The same runs with 'Hello, world' replaced by 'Hi!' become 'Hi!!', '', ''. |
| AdvReplaceExamples.ExampleInOneRun | docx/__init__.py:91-93 | The same runs with 'Hel' replaced by 'Hal' become 'Hal', 'lo,', ' world!'. |
| AdvReplace.MoveNodes | docx/__init__.py:177-182 | Appending the replacement elements to a new host moves them there from the previous host. |
| AdvReplace.SetText | docx/__init__.py:176-191 | Setting one run's text in place changes that run's text and nothing else. |
| AdvReplace.PlaceLeaf | docx/__init__.py:168-191 | One step of the placement loop keeps the placement invariant, with the array matching the texts. |
| AdvReplace.Place | docx/__init__.py:166-191 | The loop leaves the array as the block rewrite, with the host being the first run that passes the match start. |
| AdvReplace.BlockText | docx/__init__.py:141-143 | The loop's text is the concatenation of the block's runs. |
| AdvReplace.FindSpan | docx/__init__.py:130-148 | The loops find the first matching block in loop order, together with its text. |
| AdvReplace.RewriteFound | docx/__init__.py:147-191 | The in-place rewrite of the found block agrees with the block-rewrite function. |
| AdvReplace.SearchWindow | docx/__init__.py:130-191 | The in-place search of a window agrees with the search function. |
| AdvReplace.Visit | docx/__init__.py:117-191 | The in-place visit of one element agrees with the scan's visit function. |
| AdvReplace.AdvReplaceLeaves | docx/__init__.py:66-192 | After the loop each element holds the scan's text, and the replacement elements hang under the last host. |
| Document.Names | docx/document.py:136 | `namelist()` lists every entry name, in directory order. |
| Document.ReadEntry | docx/document.py:31-35 | `read` finds an entry exactly when one of that name exists. |
| Document.ReadXml | docx/document.py:31 | A missing part raises KeyError and a part that is not XML raises a syntax error. Otherwise the parsed tree is returned. |
| Document.ReadManifest | docx/document.py:32-35 | A missing manifest raises KeyError. An empty one counts as none, so the class takes its defaults. |
| Document.FirstWithTag | docx/document.py:36 | The first position with the tag, or none when no later position has it. |
| Document.BodyIndex | docx/document.py:36 | `/w:document/w:body` picks the first w:body child of a w:document root. It finds none exactly when there is none. |
| Document.LoadTemplate | docx/document.py:29-36 | Loading fails with the first failing read, in source order. Otherwise it returns the document, its body and the two manifests. |
| Document.LastMatch | docx/document.py:38-47 | `search` returns the last matching run in document order, or nothing when none matches. |
| Document.SearchMissesSplitMatch | docx/document.py:42-46 | A match split over two runs is not found. |
| Document.ReplaceTree | docx/document.py:49-57 | Every matching run has each occurrence replaced. Tags, attributes, namespaces and tree shape are kept. |
| Document.ReplaceForest | docx/document.py:52-57 | Each element of a list is replaced independently. |
| Document.IterReplaceTree | docx/document.py:52-57 | Document order is kept: the k-th element of the new tree is the k-th element of the old, replaced. |
| Document.ReplaceIsOneLeafScan | docx/document.py:49-57 | `replace` gives every element the text that `advReplace` with a one-run window gives it. |
| Document.ReplaceWithoutMatch | docx/document.py:49-57 | When `search` finds nothing, `replace` leaves the tree unchanged. |
| Document.ParagraphTexts | docx/document.py:81-91 | Paragraph texts are never empty and never outnumber the paragraphs. |
| Document.ParagraphTextsAppend | docx/document.py:81-91 | The texts of two runs of paragraphs follow one another. |
| Document.DocumentTextAppend | docx/document.py:70-95 | Appending to the root adds the new element's paragraph texts after the old ones. |
| Document.FreshTree | docx/document.py:20-22 | A fresh document is a w:document root holding one empty w:body, found at position 0. |
| Document.FreshTreeIsMade | docx/document.py:20-22 | That tree is what the factory makes for "document" and "body" under 'w'. |
| Document.AddToBody | docx/document.py:63-68 | The element becomes the body's last child and nothing else changes. |
| Document.DocumentTextAdd | docx/document.py:63-92 | Adding to a body that is the last child adds the element's paragraph texts at the end. |
| Document.ParagraphText | docx/document.py:82-88 | The loop's text is the concatenation of the paragraph's non-empty w:t texts, in order. |
| Document.RunInto | docx/document.py:146-165 | The archive gains the writes of the steps up to the first failure, and reports that failure. |
| Document.Open | docx/document.py:13-36 | A named template file that exists is loaded, or the load's error is raised. Otherwise a fresh document with the default manifests is built. |
| Document.DocxDocument.Fresh | docx/document.py:13-27 | A fresh document starts with the fresh tree, default manifests and properties, no core properties and no archive. |
| Document.DocxDocument.FromTemplate | docx/document.py:29-36 | The document takes the loaded tree, body and manifests. The property attributes are never set. |
| Document.DocxDocument.Search | docx/document.py:38-47 | Returns the last run whose own text contains the pattern. |
| Document.DocxDocument.Replace | docx/document.py:49-57 | The tree becomes the replaced tree, and the body stays valid. |
| Document.DocxDocument.Add | docx/document.py:63-68 | With a position nothing happens. Otherwise the element is appended to the body. |
| Document.DocxDocument.Append | docx/document.py:94-95 | The element becomes the root's last child. |
| Document.DocxDocument.GetText | docx/document.py:70-92 | Returns the paragraph texts of the whole tree. |
| Document.DocxDocument.WriteXmlFiles | docx/document.py:112-123 | The five generated parts are written in order until the first fails. |
| Document.DocxDocument.CopyTemplateDir | docx/document.py:125-132 | Each walked file whose bare name is not ignored is written under its relative path. |
| Document.DocxDocument.CopyTemplateFile | docx/document.py:134-139 | Each template entry is copied except the three parts rewritten afterwards. |
| Document.DocxDocument.CopyMediaFiles | docx/document.py:141-144 | Each queued image is written under word/media/, in queue order. |
| Document.DocxDocument.WriteDirBranch | docx/document.py:150-152 | The template directory branch writes what its outcome says and stops at the same failure. |
| Document.DocxDocument.WriteFileBranch | docx/document.py:153-160 | The template archive branch writes what its outcome says and stops at the same failure. |
| Document.DocxDocument.WriteTail | docx/document.py:162-165 | The queued media is written, then the document part. |
| Document.DocxDocument.WriteArchive | docx/document.py:146-165 | The new archive holds exactly the plan's writes, and the error is the plan's. |
| Document.DocxDocument.Save | docx/document.py:146-165 | The new archive holds exactly the writes of the save plan with the package's own ignore list, and the error is the plan's. |
| Document.ZipWriter.constructor | docx/document.py:148 | A new archive is empty. |
| Document.ZipWriter.WriteStr | docx/document.py:123 | A write adds one entry after the others. |
| Document.RunSteps | docx/document.py:146-165 | No step fails exactly when the run reports no error, and a run never writes more entries than it has steps. |
| Document.RunStepsAppend | docx/document.py:146-165 | Running two lists of steps runs the second only if the first did not fail. |
| Document.XmlSteps | docx/document.py:112-123 | These are the core, app, content types, web settings and relationships parts, in that order. Without property attributes the first step raises AttributeError, and so does a None core-properties object. |
| Document.DirWritesMembers | docx/document.py:125-132 | The directory copy writes exactly the walked files whose bare names are not ignored. |
| Document.TemplateCopyMembers | docx/document.py:134-139 | The archive copy writes exactly the entries whose base names are not the rewritten ones. |
| Document.ManifestSteps | docx/document.py:155-160 | After an archive copy the relationships manifest is written, then the content types. |
| Document.MediaWrites | docx/document.py:141-144 | One write per queued image: word/media/&lt;name&gt; from its path. |
| Document.PlanStages | docx/document.py:146-165 | The directory branch, the archive branch and the tail run one after the other. A failure ends the save. |
| Document.PlanByBranches | docx/document.py:146-165 | The plan is the two branch outcomes, then the media and the document part, as long as nothing failed. |
| Document.SaveEndsWithDocument | docx/document.py:162-165 | A save that succeeds ends with the queued media and then the document part. |
| Document.SaveWithoutTemplate | docx/document.py:146-165 | Without any template a save writes only the media and the document part, and cannot fail. |
| Document.SaveFromTemplateFile | docx/document.py:153-165 | A save from a template archive writes the copied entries, the two manifests, the media and the document. |
| Document.SaveDirWithoutCoreFails | docx/document.py:112-123 | With a template directory, a save without core properties fails on its first write and writes nothing. |
| Document.SaveFromTemplateDir | docx/document.py:150-165 | A save with a template directory and core properties writes the five parts, the directory copy, the media and the document. |
| Document.IgnoreListMissesRelationships | docx/__init__.py:58-61 | With the package's ignore list, a template directory's relationships file is copied, under the relationships part's name. |
| Document.SavePlanWritesRelationshipsTwice | docx/document.py:112-132 | A save as written, from a template directory holding word/_rels/document.xml.rels, writes the relationships part twice: the generated one, then the template's copy over it. |
| Document.CorrectedSaveWritesPartsOnce | docx/document.py:146-165 | With the corrected ignore list, a save from a template directory writes each generated part once: the five first, the document part last, and no copy or media entry in between under a generated name. |
| Document.MediaNameNotGenerated | docx/document.py:141-144 | A media entry under word/media/ never has the name of a generated part. |
| Document.TopLevelFileIsNotGenerated | docx/document.py:127-132 | A file at the top of the directory that the corrected list lets through is never a generated part. |
| Document.NestedFileIsNotGenerated | docx/document.py:127-132 | A nested file that the corrected list lets through is never a generated part. |
| Document.DirCopySkipsGeneratedParts | docx/document.py:125-132 | With the corrected list, the directory copy never writes a part the save generates. |
| Document.TemplateCopySkipsRewrittenParts | docx/document.py:134-139 | The archive copy never writes the document, relationships or content-types part. |
| Elements.W | docx/utils.py:5-37 | `make_element` with the default 'w' prefix gives an element whose tag is in the WordprocessingML namespace, with no text and no children. |
| Elements.WText | docx/elements.py:64-68 | A 'w' text element, whose text is set only when non-empty. |
| Elements.Elem | docx/elements.py:278-334 | An element under another prefix, with its attributes as given. |
| Elements.WIsMadeElement | docx/utils.py:5-37 | The 'w' shorthand is exactly what the factory makes. |
| Elements.WAttrOfW | docx/utils.py:26-27 | A 'w' element carries exactly its given attributes, each in the 'w' namespace. |
| Elements.ParagraphTag | docx/document.py:77 | The builders' paragraph tag is the one `get_text` looks for. |
| Elements.PageBreakFailures | docx/elements.py:14-30 | An unknown break type raises ValueError. A section break with an orientation other than portrait or landscape fails on the unbound page size. Nothing else fails. |
| Elements.PageBreakShape | docx/elements.py:17-22 | A page break is w:p holding one w:r holding one w:br of type page. |
| Elements.SectionBreakHoldsSize | docx/elements.py:23-32 | A section break's properties hold the page size at pPr/sectPr/pgSz. |
| Elements.PageSizes | docx/elements.py:26-29 | Portrait is 12240 by 15840. Landscape swaps the two and adds orient=landscape. |
| Elements.RunSources | docx/elements.py:60-66 | The run sources come in entry order, and a short styled entry raises IndexError. |
| Elements.RunsOf | docx/elements.py:77-97 | One run per source, in order. |
| Elements.Paragraph | docx/elements.py:36-99 | A paragraph fails only with IndexError. |
| Elements.ParagraphFailures | docx/elements.py:60-68 | A paragraph fails exactly on a styled entry with fewer than two fields. A plain text is one unstyled run. |
| Elements.ParagraphBuildsExactly | docx/elements.py:60-68 | The texts that make a paragraph are exactly those without a short styled entry. |
| Elements.ParagraphShape | docx/elements.py:58-76 | A paragraph is w:p whose first child holds the style, then the alignment. |
| Elements.ParagraphRuns | docx/elements.py:77-97 | After its properties, a paragraph holds one run per source, in order, and nothing else. |
| Elements.KeepMembers | docx/elements.py:81-89 | The style filter keeps exactly the wanted letters. |
| Elements.RunPropsOrder | docx/elements.py:79-90 | The run properties are b, u, i in that fixed order, one for each letter in the style. u has val=single. |
| Elements.RunShape | docx/elements.py:78-96 | A run holds its properties first and its text last. The page-break marker sits between them exactly when breakbefore is set. |
| Elements.HeadingShape | docx/elements.py:102-120 | A heading fails exactly for languages other than en and it, with KeyError. It is w:p with the style &lt;lang name&gt;&lt;level&gt;, then one run holding the text. |
| Elements.HeadingLevelReadsBack | docx/elements.py:111 | The level can be read back from the heading style name. |
| Elements.CellNodesShape | docx/elements.py:205-211 | A cell's entries fail only on a text that cannot make a paragraph. Elements are kept as they are and texts become paragraphs. |
| Elements.CellWidthShape | docx/elements.py:195-199 | A cell width fails only past the end of a given width list. It is the given width and unit, or 0/auto. |
| Elements.HeaderCellBuilds | docx/elements.py:192-211 | A header cell is made exactly when its width exists and its entries can be made. |
| Elements.HeaderCellShape | docx/elements.py:192-212 | A header cell is w:tc with width and shading, then its entries, with text centred. |
| Elements.ContentCellBuilds | docx/elements.py:220-241 | A content cell is made exactly when its width exists, its entries can be made, and a text entry has its column style. |
| Elements.ContentCellShape | docx/elements.py:220-242 | A content cell is w:tc with its width, then its entries, with text aligned by the column style or left. |
| Elements.HeaderRowBuilds | docx/elements.py:184-214 | A header row is made exactly when every header cell is. |
| Elements.HeaderRowShape | docx/elements.py:184-214 | A header row is w:tr with the row properties, then one header cell per cell. |
| Elements.ContentRowBuilds | docx/elements.py:217-244 | A content row is made exactly when all of its cells fit. |
| Elements.ContentRowShape | docx/elements.py:217-244 | A content row is w:tr holding one content cell per cell, in order. |
| Elements.GridShape | docx/elements.py:179-182 | The grid fails only when the width list is too short. Otherwise it has one gridCol per column, of the given width or 2390. |
| Elements.BorderElementsKept | docx/elements.py:164-174 | The border elements are those of the wanted sides, in side order, each with its side's attributes. |
| Elements.BordersFollowSides | docx/elements.py:164-174 | Borders follow the order top, left, bottom, right, insideH, insideV. With 'all', every side gets the 'all' attributes. |
| Elements.TablePropsShape | docx/elements.py:158-177 | Table properties are the style ColorfulGrid-Accent1, the width, the borders when any are given, then tblLook. |
| Elements.ContentStart | docx/elements.py:189-216 | The content rows start at the first or second row. |
| Elements.ContentRowsErrorKind | docx/elements.py:216-244 | Content rows fail only with IndexError. |
| Elements.TableErrorKind | docx/elements.py:123-245 | A table fails only with IndexError. |
| Elements.TableChildren | docx/elements.py:156-245 | A table's children are its properties, its grid, the header row when heading is set, then the content rows. |
| Elements.TableShape | docx/elements.py:156-245 | Read back by position: properties, grid, header row, then the content rows. |
| Elements.ContentRowsFrom | docx/elements.py:216-244 | The content rows are made exactly when each of those rows fits. |
| Elements.ContentRowsAt | docx/elements.py:216-244 | Each content row sits at its position among the table's children. |
| Elements.TableOkParts | docx/elements.py:123-245 | A table is made exactly when the contents are non-empty and its parts can be made. |
| Elements.TablePartsFit | docx/elements.py:156-245 | The parts can be made exactly when they fit. |
| Elements.TableSucceeds | docx/elements.py:123-245 | A table is made exactly when the contents are non-empty and every part fits. |
| Elements.TableRows | docx/elements.py:215-245 | After the header row come exactly the content rows from the first content row on, in order. |
| Elements.TableHeadingRow | docx/elements.py:189-216 | With a heading, the content rows start at the second row. The exception is a first row whose last cell is an empty list: that row is then emitted again as content. |
| Elements.PixelSize | docx/elements.py:257-260 | The given size is used when both parts are non-zero; otherwise the image's own size is read, and an image that cannot be opened raises IOError. |
| Elements.Blip | docx/elements.py:279 | The blip is an a:blip element with no children. |
| Elements.BlipIsMadeElement | docx/elements.py:279 | The blip is what the factory makes: it embeds the relationship id as r:embed. |
| Elements.PictureFrame | docx/elements.py:335-341 | A picture paragraph is w:p, then w:r, then w:drawing, around one wp:inline. |
| Elements.InlineExtent | docx/elements.py:327-330 | The inline extent is the size given. |
| Elements.InlineDocPr | docx/elements.py:323-332 | The document properties carry the picture id and the description. |
| Elements.InlineBlip | docx/elements.py:277-334 | Down its graphic, the inline drawing holds the blip of the relationship id. |
| Elements.PicShape | docx/elements.py:286-304 | The lock flags are "0" or "1" as given, and the shape extent is the size. |
| Elements.PictureIds | docx/elements.py:268-279 | The picture embeds exactly the id of the relationship it adds, its picture id is that number, and its extent is 12667 EMU per pixel in each direction. |
| Elements.PictureIdsDiffer | docx/elements.py:268-271 | Pictures added at different table lengths get different relationship ids. |
| Elements.Picture | docx/elements.py:248-341 | The image is always queued. A relationship and the paragraph follow only once the size is known; otherwise the table is unchanged and IOError is raised. |

## Left out

- Regular expressions: `search`, `replace` and `advReplace` take a regular expression. The model takes a literal pattern: `Find` is Python's `search` and `ReplaceAll` is `re.sub`. Escapes in the replacement string are not modelled.
- `replace` with an element argument (replacing the matched run by an element) is not modelled. Only string replacements are.
- The lxml parser and serialiser: a part's content is the tree it parses to, or a marker for empty or non-XML bytes. Pretty-printing, XML declarations and encodings are not modelled.
- The ZIP format and the file system:
  - archives are sequences of named entries;
  - `os.path.isfile(template_file)` is the `archive` parameter of `Document.Open`;
  - `os.walk` is the `files` parameter;
  - `os.path.abspath` is the `absPath` parameter of `Elements.Picture`.
- Image decoding: PIL's `Image.open(...).size` is the `imageSize` parameter of `Elements.Picture`, with None when the file cannot be opened.
- Python 2 dictionary iteration order:
  - Meta.DefaultElements and Meta.ContentTypesXml: the six Defaults are written in one fixed order (rels, xml, jpeg, gif, png, wmf). The source iterates a dict literal whose order Python 2 leaves unspecified; only the set of Defaults is what the source fixes.
  - the content-type Overrides are written in an order passed as a parameter (`ctOrder`), which must enumerate the registry;
  - `Document.XmlSteps` writes the generated parts in the order of the dict display. The real order of the source's dict is arbitrary, so an AttributeError on `None._xml()` may come after some parts were written.
- `CoreProperties._xml` (a clock-stamped tree) and `AppProperties._xml` are modelled only as the generated entries `docProps/core.xml` and `docProps/app.xml`. Their contents are not modelled.
- Elements.Picture: only the relationship, the EMU size, the ids, the lock flags, the media queue and the frame of the inline drawing are proved. The remaining constant sub-elements of the drawing are built but not stated.
- AdvReplace.AdvReplaceLeaves: runs on an array holding the elements of `document.iter()` in document order, not on the tree. Writing the array back into the tree is not modelled.
- Document.DocxDocument.Add, Document.DocxDocument.Append and Elements.CellNodesShape: re-parenting is not modelled. lxml's `append` moves an element that already has a parent; the model's trees are values, so XmlTree.AppendChild adds a copy. An element already in the tree, or one element reused across several table cells, ends up in every place it was appended, where the source keeps only the last.
- Document.DocxDocument.Add: the `position` argument only decides whether anything happens, as in the source.
- `None` arguments: `None` for `tagtext`, `attrnsprefix`, `colw` and `celstyle` is modelled as the empty string or empty sequence. The source tests these for truth, so both behave alike.
- Python's `unicode()` of border attribute values is modelled as the given string.
- The commented-out `_clean` is not part of this model.

## Findings

| source | as written | input that shows it | evidently intended | confidence | as-written member | corrected member |
|---|---|---|---|---|---|---|
| docx/__init__.py:58-61 | `FILES_TO_IGNORE` lists the path `'word/_rels/document.xml.rels'`. `_copy_template_dir` compares it against bare file names from `os.walk`, so it never matches. | A template directory holding `word/_rels/document.xml.rels`: the copy writes that entry after `_write_xml_files` already wrote the generated relationships part. | List the bare name `document.xml.rels`, so that no generated part is copied over. | not executed | Document.SavePlanWritesRelationshipsTwice | Document.CorrectedSaveWritesPartsOnce |
