/** The package-wide constants: the prefix-to-namespace table used for every
    element the package builds, the bare file names a template directory copy
    skips, and the qualified tags of the WordprocessingML elements the
    document operations look for. */
module Namespaces {

  const W_URI: string := "http://schemas.openxmlformats.org/wordprocessingml/2006/main"

  /** Every prefix used in document.xml and the property parts, with its
      namespace URI. */
  const NSPREFIXES: map<string, string> := map[
    // text content
    "mv" := "urn:schemas-microsoft-com:mac:vml",
    "mo" := "http://schemas.microsoft.com/office/mac/office/2008/main",
    "ve" := "http://schemas.openxmlformats.org/markup-compatibility/2006",
    "o" := "urn:schemas-microsoft-com:office:office",
    "r" := "http://schemas.openxmlformats.org/officeDocument/2006/relationships",
    "m" := "http://schemas.openxmlformats.org/officeDocument/2006/math",
    "v" := "urn:schemas-microsoft-com:vml",
    "w" := W_URI,
    "w10" := "urn:schemas-microsoft-com:office:word",
    "wne" := "http://schemas.microsoft.com/office/word/2006/wordml",
    // drawing
    "wp" := "http://schemas.openxmlformats.org/drawingml/2006/wordprocessingDrawing",
    "a" := "http://schemas.openxmlformats.org/drawingml/2006/main",
    "pic" := "http://schemas.openxmlformats.org/drawingml/2006/picture",
    // core and extended properties
    "cp" := "http://schemas.openxmlformats.org/package/2006/metadata/core-properties",
    "dc" := "http://purl.org/dc/elements/1.1/",
    "dcterms" := "http://purl.org/dc/terms/",
    "dcmitype" := "http://purl.org/dc/dcmitype/",
    "xsi" := "http://www.w3.org/2001/XMLSchema-instance",
    "ep" := "http://schemas.openxmlformats.org/officeDocument/2006/extended-properties",
    // the two package manifests
    "ct" := "http://schemas.openxmlformats.org/package/2006/content-types",
    "pr" := "http://schemas.openxmlformats.org/package/2006/relationships"
  ]

  /** File names never copied from a template directory: they are the parts
      the package regenerates. */
  const FILES_TO_IGNORE: seq<string> := [
    "Thumbs.db", ".DS_STORE", "document.xml", "core.xml", "app.xml", "[Content_Types].xml",
    "webSettings.xml", "word/_rels/document.xml.rels"
  ]

  /** The Clark-notation name of `local` in the namespace of `prefix`. */
  function Qualified(prefix: string, local: string): string
    requires prefix in NSPREFIXES
  {
    "{" + NSPREFIXES[prefix] + "}" + local
  }

  /** The tags of a text leaf (w:t), a paragraph (w:p), the document root
      (w:document) and the body (w:body). */
  const W_T: string := "{" + W_URI + "}t"
  const W_P: string := "{" + W_URI + "}p"
  const W_DOCUMENT: string := "{" + W_URI + "}document"
  const W_BODY: string := "{" + W_URI + "}body"
}
