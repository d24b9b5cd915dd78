/** `advReplace`: search and replace across runs of text. The text of a
    paragraph is often split over several w:t leaves; the scan keeps a
    sliding window of the last `bs` non-empty leaves and, each time a leaf
    enters it, looks for the pattern in every contiguous block of the window,
    shortest block first and leftmost among blocks of one length. The first
    block that matches is rewritten: one leaf (the "host") receives the whole
    substituted text of the block, and every other leaf of the block is
    emptied.

    The document is given as the sequence of elements `document.iter()`
    visits, in document order, held in an array whose slots the scan updates
    in place. The pattern is a literal string (see `Strings.Find` and
    `Strings.ReplaceAll`). */
module AdvReplace {
  import opened Wrappers
  import opened XmlTree
  import opened Strings
  import opened Namespaces

  /** What replaces a match: a string, one element, or a list of elements. */
  datatype Payload = Text(replacement: string) | Element(node: Node) | Elements(nodes: seq<Node>)

  /** The elements a payload appends to the host (none for a string). */
  function PayloadNodes(payload: Payload): seq<Node>
  {
    match payload
    case Text(_) => []
    case Element(n) => [n]
    case Elements(ns) => ns
  }

  /** The host's new text: the block's text with every match replaced by the
      string payload, or deleted for an element payload. */
  function HostText(payload: Payload, block: string, p: string): (r: string)
    ensures payload.Text? ==> r == ReplaceAll(block, p, payload.replacement)
    ensures !payload.Text? ==> r == ReplaceAll(block, p, "")
  {
    ReplaceAll(block, p, if payload.Text? then payload.replacement else "")
  }

  /** Python's truth value of an element's text. */
  predicate NonEmpty(t: Option<string>)
  {
    t.Some? && t.value != ""
  }

  function TextValue(t: Option<string>): string
  {
    if t.Some? then t.value else ""
  }

  predicate Increasing(ix: seq<nat>)
  {
    forall i, j :: 0 <= i < j < |ix| ==> ix[i] < ix[j]
  }

  /** The texts of the leaves at the positions `ix`, in that order. */
  function TextsAt(texts: seq<Option<string>>, ix: seq<nat>): (r: seq<string>)
    requires forall k :: 0 <= k < |ix| ==> ix[k] < |texts|
    ensures |r| == |ix|
    ensures forall k :: 0 <= k < |ix| ==> r[k] == TextValue(texts[ix[k]])
  {
    seq(|ix|, k requires 0 <= k < |ix| => TextValue(texts[ix[k]]))
  }

  /** A block of consecutive window positions is itself increasing and in
      range, and its texts are the block of the window's texts. */
  lemma {:induction false} BlockOfWindow(texts: seq<Option<string>>, w: seq<nat>, s: nat, l: nat)
    requires s + l <= |w| && Increasing(w) && forall k :: 0 <= k < |w| ==> w[k] < |texts|
    ensures Increasing(w[s..s + l]) && forall k :: s <= k < s + l ==> w[k] < |texts|
    ensures TextsAt(texts, w[s..s + l]) == TextsAt(texts, w)[s..s + l]
  {
    var e := w[s..s + l];
    assert forall k :: 0 <= k < |e| ==> e[k] == w[s + k];
    assert TextsAt(texts, e) == TextsAt(texts, w)[s..s + l];
  }

  // ---------------------------------------------------------------------
  // The window
  // ---------------------------------------------------------------------

  /** A leaf enters the window at the end; when the window then holds more
      than `bs` leaves, the oldest one leaves it. */
  function Slide(window: seq<nat>, idx: nat, bs: int): (w: seq<nat>)
    ensures |window| <= (if bs < 0 then 0 else bs) ==> |w| <= (if bs < 0 then 0 else bs)
    ensures bs >= 1 ==> |w| > 0 && w[|w| - 1] == idx
    ensures w == window + [idx] || w == (window + [idx])[1..]
    ensures |w| == |window| + 1 ==> |w| <= bs
  {
    var w := window + [idx];
    if |w| > bs then w[1..] else w
  }

  // ---------------------------------------------------------------------
  // The first matching block
  // ---------------------------------------------------------------------

  /** The block of `l` window leaves starting at `s` contains the pattern. */
  predicate SpanMatches(ts: seq<string>, p: string, s: nat, l: nat)
  {
    1 <= l && s + l <= |ts| && Contains(Concat(ts[s..s + l]), p)
  }

  /** Block (s', l') comes no earlier than (s, l) in the search order:
      longer, or as long and starting no further left. */
  predicate NotBefore(s': nat, l': nat, s: nat, l: nat)
  {
    l' > l || (l' == l && s' >= s)
  }

  /** The search from block (s, l) on, in the order of the nested loops. */
  function FirstSpanFrom(ts: seq<string>, p: string, s: nat, l: nat): Option<(nat, nat)>
    requires 1 <= l
    decreases |ts| + 1 - l, |ts| + 1 - s
  {
    if l > |ts| then None
    else if s + l > |ts| then FirstSpanFrom(ts, p, 0, l + 1)
    else if SpanMatches(ts, p, s, l) then Some((s, l))
    else FirstSpanFrom(ts, p, s + 1, l)
  }

  /** The search from (s, l) on finds a matching block no earlier than
      (s, l), and no block between the two matches; when it finds none, no
      block from (s, l) on matches. */
  lemma {:induction false} FirstSpanFromIsFirst(ts: seq<string>, p: string, s: nat, l: nat)
    requires 1 <= l
    ensures var r := FirstSpanFrom(ts, p, s, l);
            r.Some? ==> SpanMatches(ts, p, r.value.0, r.value.1) && NotBefore(r.value.0, r.value.1, s, l)
    ensures var r := FirstSpanFrom(ts, p, s, l);
            r.Some? ==> forall s', l' :: NotBefore(s', l', s, l) && !NotBefore(s', l', r.value.0, r.value.1) ==>
                          !SpanMatches(ts, p, s', l')
    ensures FirstSpanFrom(ts, p, s, l).None? ==> forall s', l' :: NotBefore(s', l', s, l) ==> !SpanMatches(ts, p, s', l')
    decreases |ts| + 1 - l, |ts| + 1 - s
  {
    if l > |ts| {
    } else if s + l > |ts| {
      FirstSpanFromIsFirst(ts, p, 0, l + 1);
    } else if !SpanMatches(ts, p, s, l) {
      FirstSpanFromIsFirst(ts, p, s + 1, l);
    }
  }

  /** A block the search from (s, l) on finds matches. */
  lemma {:induction false} FirstSpanFromMatches(ts: seq<string>, p: string, s: nat, l: nat)
    requires 1 <= l
    ensures var r := FirstSpanFrom(ts, p, s, l);
            r.Some? ==> SpanMatches(ts, p, r.value.0, r.value.1)
    decreases |ts| + 1 - l, |ts| + 1 - s
  {
    if l > |ts| {
    } else if s + l > |ts| {
      FirstSpanFromMatches(ts, p, 0, l + 1);
    } else if !SpanMatches(ts, p, s, l) {
      FirstSpanFromMatches(ts, p, s + 1, l);
    }
  }

  /** The first block, shortest first and then leftmost, whose text
      contains the pattern: as (start, length) in the window. */
  function FirstSpan(ts: seq<string>, p: string): Option<(nat, nat)>
  {
    FirstSpanFrom(ts, p, 0, 1)
  }

  /** `FirstSpan` finds a matching block, and every block before it in the
      search order fails to match; when it finds none, no block matches. */
  lemma {:induction false} FirstSpanIsFirst(ts: seq<string>, p: string)
    ensures FirstSpan(ts, p).Some? ==> SpanMatches(ts, p, FirstSpan(ts, p).value.0, FirstSpan(ts, p).value.1)
    ensures FirstSpan(ts, p).Some? ==>
              forall s', l' :: !NotBefore(s', l', FirstSpan(ts, p).value.0, FirstSpan(ts, p).value.1) ==>
                !SpanMatches(ts, p, s', l')
    ensures FirstSpan(ts, p).None? ==> forall s, l :: !SpanMatches(ts, p, s, l)
  {
    FirstSpanFromIsFirst(ts, p, 0, 1);
  }

  /** The host search from block position j on: the first leaf at which the
      running length of the block's text passes `start`. */
  function HostFrom(ts: seq<string>, start: nat, j: nat): (r: Option<nat>)
    requires j <= |ts| && |Concat(ts[..j])| <= start
    ensures r.Some? ==> j <= r.value < |ts|
    ensures r.Some? ==> |Concat(ts[..r.value])| <= start < |Concat(ts[..r.value + 1])|
    ensures r.None? ==> |Concat(ts)| <= start
    decreases |ts| - j
  {
    if j == |ts| then
      assert ts[..j] == ts;
      None
    else if |Concat(ts[..j + 1])| > start then Some(j)
    else HostFrom(ts, start, j + 1)
  }

  /** Each leaf adds its length to the running length. */
  lemma {:induction false} RunningLength(ts: seq<string>, j: nat)
    requires j < |ts|
    ensures |Concat(ts[..j + 1])| == |Concat(ts[..j])| + |ts[j]|
  {
    assert ts[..j + 1] == ts[..j] + [ts[j]];
    ConcatAppend(ts[..j], [ts[j]]);
    ConcatSingle(ts[j]);
  }

  /** The leaf of the block that receives the replacement: the first whose
      running length passes the match's start; None when the block's text
      is no longer than that start. */
  function HostOf(ts: seq<string>, start: nat): (r: Option<nat>)
    ensures r.Some? ==> r.value < |ts|
    ensures r.Some? ==> |Concat(ts[..r.value])| <= start < |Concat(ts[..r.value + 1])|
    ensures r.None? ==> |Concat(ts)| <= start
  {
    assert ts[..0] == [];
    HostFrom(ts, start, 0)
  }

  /** The texts after a block at positions `e` is rewritten: the host (block
      position h) gets `hostText`, every other leaf of the block "", and
      the leaves outside the block keep their text. */
  function Rewrite(texts: seq<Option<string>>, e: seq<nat>, h: Option<nat>, hostText: string): (r: seq<Option<string>>)
    requires forall k :: 0 <= k < |e| ==> e[k] < |texts|
    requires Increasing(e)
    requires h.Some? ==> h.value < |e|
    ensures |r| == |texts|
    ensures forall k :: 0 <= k < |texts| && k !in e ==> r[k] == texts[k]
    ensures forall j :: 0 <= j < |e| ==> r[e[j]] == if h == Some(j) then Some(hostText) else Some("")
  {
    seq(|texts|, k requires 0 <= k < |texts| =>
      if k in e then (if h.Some? && e[h.value] == k then Some(hostText) else Some("")) else texts[k])
  }

  // ---------------------------------------------------------------------
  // The scan
  // ---------------------------------------------------------------------

  /** The scan's state: every element's current text, the window (positions
      of leaves, oldest first), and the last leaf that received elements. */
  datatype ScanState = ScanState(texts: seq<Option<string>>, window: seq<nat>, host: Option<nat>)

  /** What the element at position idx must be to enter the window. */
  predicate Enters(ls: seq<Node>, texts: seq<Option<string>>, idx: nat)
    requires idx < |ls| && idx < |texts|
  {
    ls[idx].tag == W_T && NonEmpty(texts[idx])
  }

  /** The window after idx enters it: still increasing, and every position
      in it has been visited. */
  lemma {:induction false} SlideIncreasing(window: seq<nat>, idx: nat, bs: int)
    requires Increasing(window) && forall k :: 0 <= k < |window| ==> window[k] < idx
    ensures Increasing(Slide(window, idx, bs))
    ensures forall k :: 0 <= k < |Slide(window, idx, bs)| ==> Slide(window, idx, bs)[k] <= idx
    ensures forall k :: 0 <= k < |Slide(window, idx, bs)| ==>
              Slide(window, idx, bs)[k] in window || Slide(window, idx, bs)[k] == idx
    ensures forall i :: i in Slide(window, idx, bs) ==> i in window || i == idx
  {
    var w := window + [idx];
    assert forall k :: 0 <= k < |w| ==> w[k] in window || w[k] == idx;
  }

  /** The rewrite of the block of `l` window leaves starting at `s`, whose
      text contains the pattern. */
  function RewriteBlock(texts: seq<Option<string>>, host: Option<nat>, w: seq<nat>, s: nat, l: nat,
                        payload: Payload, p: string): (r: ScanState)
    requires s + l <= |w| && Increasing(w) && forall k :: 0 <= k < |w| ==> w[k] < |texts|
    requires Contains(Concat(TextsAt(texts, w)[s..s + l]), p)
    ensures r.window == w && |r.texts| == |texts|
  {
    var e := w[s..s + l];
    BlockOfWindow(texts, w, s, l);
    var block := Concat(TextsAt(texts, e));
    var h := HostOf(TextsAt(texts, e), Find(block, p).value);
    ScanState(Rewrite(texts, e, h, HostText(payload, block, p)), w, if h.Some? then Some(e[h.value]) else host)
  }

  /** The search of a window just entered, and the rewrite of the first
      matching block if there is one. */
  function Search(texts: seq<Option<string>>, host: Option<nat>, w: seq<nat>, payload: Payload, p: string): (r: ScanState)
    requires Increasing(w) && forall k :: 0 <= k < |w| ==> w[k] < |texts|
    ensures r.window == w && |r.texts| == |texts|
  {
    FirstSpanFromMatches(TextsAt(texts, w), p, 0, 1);
    match FirstSpan(TextsAt(texts, w), p)
    case None => ScanState(texts, w, host)
    case Some(span) => RewriteBlock(texts, host, w, span.0, span.1, payload, p)
  }

  /** Rewriting a block changes only the texts of the window, and moves the
      host only into it. */
  lemma {:induction false} RewriteBlockShape(texts: seq<Option<string>>, host: Option<nat>, w: seq<nat>, s: nat, l: nat,
                          payload: Payload, p: string)
    requires s + l <= |w| && Increasing(w) && forall k :: 0 <= k < |w| ==> w[k] < |texts|
    requires Contains(Concat(TextsAt(texts, w)[s..s + l]), p)
    ensures var r := RewriteBlock(texts, host, w, s, l, payload, p);
            forall k :: 0 <= k < |texts| && k !in w ==> r.texts[k] == texts[k]
    ensures var r := RewriteBlock(texts, host, w, s, l, payload, p);
            r.host == host || (r.host.Some? && r.host.value in w)
  {
    var e := w[s..s + l];
    assert forall k :: k in e ==> k in w;
  }

  /** A search changes only the texts of the window, and moves the host
      only into it. */
  lemma {:induction false} SearchShape(texts: seq<Option<string>>, host: Option<nat>, w: seq<nat>, payload: Payload, p: string)
    requires Increasing(w) && forall k :: 0 <= k < |w| ==> w[k] < |texts|
    ensures var r := Search(texts, host, w, payload, p);
            forall k :: 0 <= k < |texts| && k !in w ==> r.texts[k] == texts[k]
    ensures var r := Search(texts, host, w, payload, p);
            r.host == host || (r.host.Some? && r.host.value in w)
  {
    var ts := TextsAt(texts, w);
    FirstSpanFromMatches(ts, p, 0, 1);
    if FirstSpan(ts, p).Some? {
      RewriteBlockShape(texts, host, w, FirstSpan(ts, p).value.0, FirstSpan(ts, p).value.1, payload, p);
    }
  }

  /** The texts as the document holds them before the scan. */
  function Initial(ls: seq<Node>): (st: ScanState)
    ensures |st.texts| == |ls| && forall k :: 0 <= k < |ls| ==> st.texts[k] == ls[k].text
    ensures st.window == [] && st.host == None
  {
    ScanState(seq(|ls|, k requires 0 <= k < |ls| => ls[k].text), [], None)
  }

  /** The state after the first n elements have been visited: the window
      holds visited positions in document order. */
  function ScanUpTo(ls: seq<Node>, p: string, payload: Payload, bs: int, n: nat): (st: ScanState)
    requires n <= |ls|
    ensures |st.texts| == |ls|
    ensures Increasing(st.window) && forall k :: 0 <= k < |st.window| ==> st.window[k] < n
    decreases n, 0
  {
    if n == 0 then Initial(ls) else Visited(ls, p, payload, bs, n - 1)
  }

  /** The visit of position idx: when it holds a w:t leaf with non-empty
      text, the leaf enters the window and the window is searched;
      otherwise nothing changes. */
  function Visited(ls: seq<Node>, p: string, payload: Payload, bs: int, idx: nat): (st: ScanState)
    requires idx < |ls|
    ensures |st.texts| == |ls|
    ensures Increasing(st.window) && forall k :: 0 <= k < |st.window| ==> st.window[k] <= idx
    decreases idx, 2
  {
    var before := ScanUpTo(ls, p, payload, bs, idx);
    if Enters(ls, before.texts, idx) then Searched(ls, p, payload, bs, idx) else before
  }

  /** The search that starts when the leaf at idx enters the window, with
      the rewrite of the first matching block if there is one. */
  function Searched(ls: seq<Node>, p: string, payload: Payload, bs: int, idx: nat): (st: ScanState)
    requires idx < |ls|
    ensures |st.texts| == |ls|
    ensures Increasing(st.window) && forall k :: 0 <= k < |st.window| ==> st.window[k] <= idx
    decreases idx, 1
  {
    var before := ScanUpTo(ls, p, payload, bs, idx);
    SlideIncreasing(before.window, idx, bs);
    Search(before.texts, before.host, Slide(before.window, idx, bs), payload, p)
  }

  /** The search started at idx slides the window, moves the host only into
      it, and changes the texts only inside it. */
  lemma {:induction false} SearchedShape(ls: seq<Node>, p: string, payload: Payload, bs: int, idx: nat)
    requires idx < |ls|
    ensures var b := ScanUpTo(ls, p, payload, bs, idx);
            var r := Searched(ls, p, payload, bs, idx);
            r.window == Slide(b.window, idx, bs) && (r.host == b.host || (r.host.Some? && r.host.value in r.window))
    ensures var b := ScanUpTo(ls, p, payload, bs, idx);
            var r := Searched(ls, p, payload, bs, idx);
            forall k :: 0 <= k < |ls| && k !in r.window ==> r.texts[k] == b.texts[k]
  {
    var b := ScanUpTo(ls, p, payload, bs, idx);
    SlideIncreasing(b.window, idx, bs);
    SearchShape(b.texts, b.host, Slide(b.window, idx, bs), payload, p);
  }

  /** A visit slides the window only when the element enters it, moves the
      host only into the window, and changes the texts only inside the
      window, which holds no position beyond idx. */
  lemma {:induction false} VisitedShape(ls: seq<Node>, p: string, payload: Payload, bs: int, idx: nat)
    requires idx < |ls|
    ensures var b := ScanUpTo(ls, p, payload, bs, idx);
            var r := Visited(ls, p, payload, bs, idx);
            r.window == if Enters(ls, b.texts, idx) then Slide(b.window, idx, bs) else b.window
    ensures var b := ScanUpTo(ls, p, payload, bs, idx);
            var r := Visited(ls, p, payload, bs, idx);
            r.host == b.host || (r.host.Some? && r.host.value in r.window)
    ensures var b := ScanUpTo(ls, p, payload, bs, idx);
            var r := Visited(ls, p, payload, bs, idx);
            forall k :: 0 <= k < |ls| && (k !in r.window || idx < k) ==> r.texts[k] == b.texts[k]
  {
    var b := ScanUpTo(ls, p, payload, bs, idx);
    if Enters(ls, b.texts, idx) {
      SearchedShape(ls, p, payload, bs, idx);
    }
  }

  /** Elements not yet visited keep the text the document gave them. */
  lemma {:induction false} ScanUpToUnvisited(ls: seq<Node>, p: string, payload: Payload, bs: int, n: nat)
    requires n <= |ls|
    ensures forall k :: n <= k < |ls| ==> ScanUpTo(ls, p, payload, bs, n).texts[k] == ls[k].text
  {
    if n > 0 {
      ScanUpToUnvisited(ls, p, payload, bs, n - 1);
      VisitedShape(ls, p, payload, bs, n - 1);
    }
  }

  /** Every position in `w` holds a w:t leaf whose text, as the document
      gave it, is non-empty. */
  ghost predicate AllEntered(ls: seq<Node>, w: seq<nat>)
  {
    forall k :: 0 <= k < |w| ==> w[k] < |ls| && ls[w[k]].tag == W_T && NonEmpty(ls[w[k]].text)
  }

  /** The window holds at most `bs` leaves (none when `bs` is below 1), each
      a w:t leaf whose text was non-empty; the last leaf to receive
      elements has been visited. */
  ghost predicate WindowOk(ls: seq<Node>, bs: int, st: ScanState, n: nat)
  {
    && |st.window| <= (if bs < 0 then 0 else bs)
    && AllEntered(ls, st.window)
    && (st.host.Some? ==> st.host.value < n)
  }

  /** One visit keeps the window within `bs` leaves, each a w:t leaf whose
      text was non-empty when it entered. */
  lemma {:induction false} VisitedWindow(ls: seq<Node>, p: string, payload: Payload, bs: int, idx: nat)
    requires idx < |ls| && ScanUpTo(ls, p, payload, bs, idx).texts[idx] == ls[idx].text
    requires WindowOk(ls, bs, ScanUpTo(ls, p, payload, bs, idx), idx)
    ensures WindowOk(ls, bs, Visited(ls, p, payload, bs, idx), idx + 1)
  {
    var b := ScanUpTo(ls, p, payload, bs, idx);
    VisitedShape(ls, p, payload, bs, idx);
    if Enters(ls, b.texts, idx) {
      SlideIncreasing(b.window, idx, bs);
    }
  }

  /** Throughout the scan the window holds at most `bs` leaves, each a w:t
      leaf whose text was non-empty. */
  lemma {:induction false} ScanWindow(ls: seq<Node>, p: string, payload: Payload, bs: int, n: nat)
    requires n <= |ls|
    ensures WindowOk(ls, bs, ScanUpTo(ls, p, payload, bs, n), n)
  {
    if n > 0 {
      ScanWindow(ls, p, payload, bs, n - 1);
      ScanUpToUnvisited(ls, p, payload, bs, n - 1);
      VisitedWindow(ls, p, payload, bs, n - 1);
    }
  }

  /** The state after the whole document has been visited. */
  function Scan(ls: seq<Node>, p: string, payload: Payload, bs: int): (st: ScanState)
    ensures |st.texts| == |ls|
    ensures st.host.Some? ==> st.host.value < |ls|
  {
    ScanWindow(ls, p, payload, bs, |ls|);
    ScanUpTo(ls, p, payload, bs, |ls|)
  }

  // ---------------------------------------------------------------------
  // Properties of the scan
  // ---------------------------------------------------------------------

  /** Every element whose text differs from the document's is a w:t leaf
      whose text was non-empty. */
  ghost predicate OnlyTextLeavesChanged(ls: seq<Node>, texts: seq<Option<string>>)
    requires |texts| == |ls|
  {
    forall k :: 0 <= k < |ls| && texts[k] != ls[k].text ==> ls[k].tag == W_T && NonEmpty(ls[k].text)
  }

  lemma {:induction false} ScanUpToChangesOnlyTextLeaves(ls: seq<Node>, p: string, payload: Payload, bs: int, n: nat)
    requires n <= |ls|
    ensures OnlyTextLeavesChanged(ls, ScanUpTo(ls, p, payload, bs, n).texts)
  {
    if n > 0 {
      var b := ScanUpTo(ls, p, payload, bs, n - 1);
      var r := Visited(ls, p, payload, bs, n - 1);
      ScanUpToChangesOnlyTextLeaves(ls, p, payload, bs, n - 1);
      ScanWindow(ls, p, payload, bs, n);
      assert AllEntered(ls, r.window);
      forall k | 0 <= k < |ls| && r.texts[k] != ls[k].text
        ensures ls[k].tag == W_T && NonEmpty(ls[k].text)
      {
        if r.texts[k] != b.texts[k] {
          VisitedChanged(ls, p, payload, bs, n - 1, k);
          EnteredMember(ls, r.window, k);
        }
      }
    }
  }

  /** A text a visit changes lies in the window after it. */
  lemma {:induction false} VisitedChanged(ls: seq<Node>, p: string, payload: Payload, bs: int, idx: nat, k: nat)
    requires idx < |ls| && k < |ls|
    requires Visited(ls, p, payload, bs, idx).texts[k] != ScanUpTo(ls, p, payload, bs, idx).texts[k]
    ensures k in Visited(ls, p, payload, bs, idx).window
  {
    VisitedShape(ls, p, payload, bs, idx);
  }

  /** A position in a window of entered leaves holds a w:t leaf whose text
      was non-empty. */
  lemma {:induction false} EnteredMember(ls: seq<Node>, w: seq<nat>, k: nat)
    requires AllEntered(ls, w) && k in w
    ensures k < |ls| && ls[k].tag == W_T && NonEmpty(ls[k].text)
  {
    var i :| 0 <= i < |w| && w[i] == k;
  }

  /** The scan changes the text of w:t leaves with non-empty text only:
      paragraphs, runs and every other element keep theirs. */
  lemma {:induction false} ScanChangesOnlyTextLeaves(ls: seq<Node>, p: string, payload: Payload, bs: int)
    ensures OnlyTextLeavesChanged(ls, Scan(ls, p, payload, bs).texts)
  {
    ScanUpToChangesOnlyTextLeaves(ls, p, payload, bs, |ls|);
  }

  lemma {:induction false} ScanUpToWithoutWindow(ls: seq<Node>, p: string, payload: Payload, bs: int, n: nat)
    requires bs <= 0 && n <= |ls|
    ensures forall k :: 0 <= k < |ls| ==> ScanUpTo(ls, p, payload, bs, n).texts[k] == ls[k].text
    ensures ScanUpTo(ls, p, payload, bs, n).window == [] && ScanUpTo(ls, p, payload, bs, n).host == None
  {
    if n > 0 {
      ScanUpToWithoutWindow(ls, p, payload, bs, n - 1);
      var b := ScanUpTo(ls, p, payload, bs, n - 1);
      if Enters(ls, b.texts, n - 1) {
        assert Slide(b.window, n - 1, bs) == [];
        assert FirstSpan(TextsAt(b.texts, []), p) == None;
        assert Searched(ls, p, payload, bs, n - 1) == b;
      }
    }
  }

  /** With a window of no leaves (`bs` below 1) nothing is searched and
      nothing changes. */
  lemma {:induction false} ScanWithoutWindow(ls: seq<Node>, p: string, payload: Payload, bs: int)
    requires bs <= 0
    ensures forall k :: 0 <= k < |ls| ==> Scan(ls, p, payload, bs).texts[k] == ls[k].text
    ensures Scan(ls, p, payload, bs).host == None
  {
    ScanUpToWithoutWindow(ls, p, payload, bs, |ls|);
  }

  /** The test applied to one element on its own: a w:t leaf with
      non-empty text in which the pattern occurs. */
  predicate LeafMatches(n: Node, p: string)
  {
    n.tag == W_T && NonEmpty(n.text) && Contains(n.text.value, p)
  }

  /** The text a leaf-by-leaf replace gives one element: a matching leaf
      gets the substituted text, every other element keeps its own. */
  function ReplaceInLeaf(n: Node, p: string, payload: Payload): Option<string>
  {
    if LeafMatches(n, p) then Some(HostText(payload, n.text.value, p)) else n.text
  }

  /** A non-empty leaf is its own host for any match inside it. */
  lemma {:induction false} SingleLeafHost(t: string, p: string)
    requires t != "" && Contains(t, p)
    ensures HostOf([t], Find(t, p).value) == Some(0)
  {
    var start := Find(t, p).value;
    assert start < |t| by {
      if start > 0 {
        assert OccursAt(t, p, 0) ==> p == "";
      }
    }
    ConcatSingle(t);
    assert [t][..1] == [t];
  }

  /** A window of one leaf matches exactly when the leaf's text contains
      the pattern. */
  lemma {:induction false} FirstSpanSingle(t: string, p: string)
    ensures FirstSpan([t], p) == if Contains(t, p) then Some((0, 1)) else None
  {
    assert [t][0..1] == [t];
    ConcatSingle(t);
    assert SpanMatches([t], p, 0, 1) <==> Contains(t, p);
    assert FirstSpanFrom([t], p, 1, 1) == FirstSpanFrom([t], p, 0, 2) == None;
  }

  /** The search of a one-leaf window rewrites that leaf alone. */
  lemma {:induction false} SearchSingle(texts: seq<Option<string>>, host: Option<nat>, idx: nat, payload: Payload, p: string)
    requires idx < |texts| && NonEmpty(texts[idx])
    ensures forall k :: 0 <= k < |texts| && k != idx ==> Search(texts, host, [idx], payload, p).texts[k] == texts[k]
    ensures Search(texts, host, [idx], payload, p).texts[idx]
         == if Contains(texts[idx].value, p) then Some(HostText(payload, texts[idx].value, p)) else texts[idx]
  {
    var t := texts[idx].value;
    assert TextsAt(texts, [idx]) == [t];
    FirstSpanSingle(t, p);
    if Contains(t, p) {
      assert [idx][0..1] == [idx];
      ConcatSingle(t);
      SingleLeafHost(t, p);
    }
  }

  /** With a one-leaf window, the visit of a leaf replaces inside that leaf
      alone. */
  lemma {:induction false} VisitedSingleLeaf(ls: seq<Node>, p: string, payload: Payload, idx: nat)
    requires idx < |ls| && |ScanUpTo(ls, p, payload, 1, idx).window| <= 1
    requires ScanUpTo(ls, p, payload, 1, idx).texts[idx] == ls[idx].text
    ensures forall k :: 0 <= k < |ls| && k != idx ==>
              Visited(ls, p, payload, 1, idx).texts[k] == ScanUpTo(ls, p, payload, 1, idx).texts[k]
    ensures Visited(ls, p, payload, 1, idx).texts[idx] == ReplaceInLeaf(ls[idx], p, payload)
    ensures |Visited(ls, p, payload, 1, idx).window| <= 1
  {
    var b := ScanUpTo(ls, p, payload, 1, idx);
    if Enters(ls, b.texts, idx) {
      assert Slide(b.window, idx, 1) == [idx];
      SearchSingle(b.texts, b.host, idx, payload, p);
      assert Searched(ls, p, payload, 1, idx) == Search(b.texts, b.host, [idx], payload, p);
    }
  }

  lemma {:induction false} ScanUpToLeafByLeaf(ls: seq<Node>, p: string, payload: Payload, n: nat)
    requires n <= |ls|
    ensures |ScanUpTo(ls, p, payload, 1, n).window| <= 1
    ensures forall k :: 0 <= k < n ==> ScanUpTo(ls, p, payload, 1, n).texts[k] == ReplaceInLeaf(ls[k], p, payload)
  {
    if n > 0 {
      ScanUpToLeafByLeaf(ls, p, payload, n - 1);
      ScanUpToUnvisited(ls, p, payload, 1, n - 1);
      VisitedSingleLeaf(ls, p, payload, n - 1);
      var before, after := ScanUpTo(ls, p, payload, 1, n - 1), ScanUpTo(ls, p, payload, 1, n);
      assert after == Visited(ls, p, payload, 1, n - 1);
      forall k | 0 <= k < n ensures after.texts[k] == ReplaceInLeaf(ls[k], p, payload) {
        if k < n - 1 {
          assert after.texts[k] == before.texts[k];
        }
      }
    }
  }

  /** With a one-leaf window the scan is the leaf-by-leaf replace: every
      w:t leaf whose text contains the pattern gets it substituted, and
      nothing else changes. */
  lemma {:induction false} ScanLeafByLeaf(ls: seq<Node>, p: string, payload: Payload)
    ensures forall k :: 0 <= k < |ls| ==> Scan(ls, p, payload, 1).texts[k] == ReplaceInLeaf(ls[k], p, payload)
  {
    ScanUpToLeafByLeaf(ls, p, payload, |ls|);
  }

  /** A list of texts all empty but the one at h concatenates to that one. */
  lemma {:induction false} ConcatBlanks(ss: seq<string>, h: nat)
    requires h < |ss| && forall i :: 0 <= i < |ss| && i != h ==> ss[i] == ""
    ensures Concat(ss) == ss[h]
  {
    if h == 0 {
      assert forall i :: 0 <= i < |ss[1..]| ==> ss[1..][i] == ss[i + 1];
      ConcatEmpties(ss[1..]);
    } else {
      ConcatBlanks(ss[1..], h - 1);
    }
  }

  lemma {:induction false} ConcatEmpties(ss: seq<string>)
    requires forall i :: 0 <= i < |ss| ==> ss[i] == ""
    ensures Concat(ss) == ""
  {
    if ss != [] {
      ConcatEmpties(ss[1..]);
    }
  }

  /** A rewritten block concatenates to the host's new text. */
  lemma {:induction false} RewriteConcat(texts: seq<Option<string>>, e: seq<nat>, h: nat, hostText: string)
    requires Increasing(e) && forall k :: 0 <= k < |e| ==> e[k] < |texts|
    requires h < |e|
    ensures Concat(TextsAt(Rewrite(texts, e, Some(h), hostText), e)) == hostText
  {
    ConcatBlanks(TextsAt(Rewrite(texts, e, Some(h), hostText), e), h);
  }

  /** For a non-empty pattern the match starts inside the block's text, so
      some leaf of the block is the host. */
  lemma {:induction false} HostFound(ts: seq<string>, p: string)
    requires Contains(Concat(ts), p) && p != ""
    ensures HostOf(ts, Find(Concat(ts), p).value).Some?
  {
    assert OccursAt(Concat(ts), p, Find(Concat(ts), p).value);
  }

  /** After a block is rewritten for a non-empty pattern, one leaf of the
      block is the host and the block's texts concatenate to its text with
      every match substituted. */
  lemma {:induction false} RewriteBlockText(texts: seq<Option<string>>, host: Option<nat>, w: seq<nat>, s: nat, l: nat,
                         payload: Payload, p: string)
    requires s + l <= |w| && Increasing(w) && forall k :: 0 <= k < |w| ==> w[k] < |texts|
    requires Contains(Concat(TextsAt(texts, w)[s..s + l]), p) && p != ""
    ensures var r := RewriteBlock(texts, host, w, s, l, payload, p);
            r.host.Some? && r.host.value in w[s..s + l]
    ensures Concat(TextsAt(RewriteBlock(texts, host, w, s, l, payload, p).texts, w[s..s + l]))
         == HostText(payload, Concat(TextsAt(texts, w)[s..s + l]), p)
  {
    var e := w[s..s + l];
    BlockOfWindow(texts, w, s, l);
    var block := Concat(TextsAt(texts, e));
    HostFound(TextsAt(texts, e), p);
    var h := HostOf(TextsAt(texts, e), Find(block, p).value);
    RewriteConcat(texts, e, h.value, HostText(payload, block, p));
  }

  /** A window whose whole text does not contain the pattern has no
      matching block, so its search changes nothing. */
  lemma {:induction false} SearchNoMatch(texts: seq<Option<string>>, host: Option<nat>, w: seq<nat>, payload: Payload, p: string)
    requires Increasing(w) && forall k :: 0 <= k < |w| ==> w[k] < |texts|
    requires !Contains(Concat(TextsAt(texts, w)), p)
    ensures Search(texts, host, w, payload, p) == ScanState(texts, w, host)
  {
    var ts := TextsAt(texts, w);
    forall s: nat, l: nat | 1 <= l && s + l <= |ts| ensures !SpanMatches(ts, p, s, l) {
      ContainsBlock(ts, s, s + l, p);
    }
    FirstSpanIsFirst(ts, p);
  }

  /** A w:t leaf whose text, as the document gives it, is non-empty. */
  predicate IsLeaf(n: Node)
  {
    n.tag == W_T && NonEmpty(n.text)
  }

  /** The positions below n that hold such leaves, in document order. */
  function LeafPositions(ls: seq<Node>, n: nat): (r: seq<nat>)
    requires n <= |ls|
    ensures forall k :: 0 <= k < |r| ==> r[k] < n
  {
    if n == 0 then [] else LeafPositions(ls, n - 1) + if IsLeaf(ls[n - 1]) then [n - 1] else []
  }

  /** The texts of the w:t leaves among the first n elements, concatenated
      in document order. */
  function LeafText(ls: seq<Node>, n: nat): string
    requires n <= |ls|
  {
    if n == 0 then "" else LeafText(ls, n - 1) + if ls[n - 1].tag == W_T then TextValue(ls[n - 1].text) else ""
  }

  /** The leaf text is the concatenation of the texts at the leaf positions. */
  lemma {:induction false} LeafTextIsConcat(ls: seq<Node>, n: nat)
    requires n <= |ls|
    ensures LeafText(ls, n) == Concat(TextsAt(Initial(ls).texts, LeafPositions(ls, n)))
  {
    if n > 0 {
      LeafTextIsConcat(ls, n - 1);
      var texts := Initial(ls).texts;
      var before := LeafPositions(ls, n - 1);
      if IsLeaf(ls[n - 1]) {
        assert LeafPositions(ls, n) == before + [n - 1];
        assert LeafText(ls, n) == LeafText(ls, n - 1) + TextValue(texts[n - 1]);
        LeafEntersText(texts, before, n - 1);
      } else {
        assert LeafPositions(ls, n) == before;
        assert TextValue(ls[n - 1].text) == "" || ls[n - 1].tag != W_T;
        assert LeafText(ls, n) == LeafText(ls, n - 1) + "";
      }
    }
  }

  /** One more position adds its text at the end of the concatenation. */
  lemma {:induction false} LeafEntersText(texts: seq<Option<string>>, ix: seq<nat>, m: nat)
    requires m < |texts| && forall k :: 0 <= k < |ix| ==> ix[k] < |texts|
    ensures Concat(TextsAt(texts, ix + [m])) == Concat(TextsAt(texts, ix)) + TextValue(texts[m])
  {
    assert TextsAt(texts, ix + [m]) == TextsAt(texts, ix) + [TextValue(texts[m])];
    ConcatAppend(TextsAt(texts, ix), [TextValue(texts[m])]);
    ConcatSingle(TextValue(texts[m]));
  }

  /** The leaf text of a prefix of the document lies inside that of the
      whole. */
  lemma {:induction false} LeafTextGrows(ls: seq<Node>, m: nat, n: nat, p: string)
    requires m <= n <= |ls|
    ensures Contains(LeafText(ls, m), p) ==> Contains(LeafText(ls, n), p)
    decreases n
  {
    if m < n {
      LeafTextGrows(ls, m, n - 1, p);
      var last := if ls[n - 1].tag == W_T then TextValue(ls[n - 1].text) else "";
      ContainsInfix("", LeafText(ls, n - 1), last, p);
      assert "" + LeafText(ls, n - 1) + last == LeafText(ls, n);
    }
  }

  /** `w` is the last |w| positions of `s`. */
  predicate IsSuffix(w: seq<nat>, s: seq<nat>)
  {
    |w| <= |s| && w == s[|s| - |w|..]
  }

  /** A leaf entering the window of the last leaves keeps it the window of
      the last leaves. */
  lemma {:induction false} SlideSuffix(w: seq<nat>, s: seq<nat>, idx: nat, bs: int)
    requires IsSuffix(w, s)
    ensures IsSuffix(Slide(w, idx, bs), s + [idx])
  {
    var t := s + [idx];
    assert w + [idx] == t[|t| - |w| - 1..];
    if |w + [idx]| > bs {
      assert (w + [idx])[1..] == t[|t| - |w|..];
    }
  }

  /** The texts of the last positions are the last texts. */
  lemma {:induction false} SuffixTexts(texts: seq<Option<string>>, all: seq<nat>, w: seq<nat>)
    requires IsSuffix(w, all) && forall k :: 0 <= k < |all| ==> all[k] < |texts|
    ensures forall k :: 0 <= k < |w| ==> w[k] < |texts|
    ensures TextsAt(texts, w) == TextsAt(texts, all)[|all| - |w|..]
  {
    var j := |all| - |w|;
    assert forall k :: 0 <= k < |w| ==> w[k] == all[j + k];
  }

  /** The text of a window made of the last leaves, as the document gives
      them, lies inside the document's leaf text so far. */
  lemma {:induction false} WindowTextInLeafText(ls: seq<Node>, n: nat, w: seq<nat>, p: string)
    requires n <= |ls| && IsSuffix(w, LeafPositions(ls, n))
    ensures forall k :: 0 <= k < |w| ==> w[k] < |ls|
    ensures Contains(Concat(TextsAt(Initial(ls).texts, w)), p) ==> Contains(LeafText(ls, n), p)
  {
    var texts := Initial(ls).texts;
    var all := LeafPositions(ls, n);
    SuffixTexts(texts, all, w);
    var ts := TextsAt(texts, all);
    ContainsBlock(ts, |all| - |w|, |ts|, p);
    assert ts[|all| - |w|..|ts|] == ts[|all| - |w|..];
    LeafTextIsConcat(ls, n);
  }

  /** Throughout a scan of a document whose leaf text does not contain the
      pattern, every text is as the document gives it, no leaf has
      received elements, and the window holds the last leaves visited. */
  lemma {:induction false} ScanUpToNoMatch(ls: seq<Node>, p: string, payload: Payload, bs: int, n: nat)
    requires n <= |ls| && !Contains(LeafText(ls, |ls|), p)
    ensures ScanUpTo(ls, p, payload, bs, n).texts == Initial(ls).texts
    ensures ScanUpTo(ls, p, payload, bs, n).host == None
    ensures IsSuffix(ScanUpTo(ls, p, payload, bs, n).window, LeafPositions(ls, n))
  {
    if n > 0 {
      var idx := n - 1;
      ScanUpToNoMatch(ls, p, payload, bs, idx);
      var b := ScanUpTo(ls, p, payload, bs, idx);
      assert Enters(ls, b.texts, idx) == IsLeaf(ls[idx]);
      if IsLeaf(ls[idx]) {
        var w := Slide(b.window, idx, bs);
        SlideIncreasing(b.window, idx, bs);
        SlideSuffix(b.window, LeafPositions(ls, idx), idx, bs);
        WindowTextInLeafText(ls, n, w, p);
        LeafTextGrows(ls, n, |ls|, p);
        SearchNoMatch(b.texts, b.host, w, payload, p);
        assert Searched(ls, p, payload, bs, idx) == Search(b.texts, b.host, w, payload, p);
      }
    }
  }

  /** When the pattern does not occur in the concatenated texts of the
      document's w:t leaves, the scan changes nothing and places no
      elements: no block of any window can match, since each block's text
      lies inside that concatenation. */
  lemma {:induction false} ScanNoMatch(ls: seq<Node>, p: string, payload: Payload, bs: int)
    requires !Contains(LeafText(ls, |ls|), p)
    ensures forall k :: 0 <= k < |ls| ==> Scan(ls, p, payload, bs).texts[k] == ls[k].text
    ensures Scan(ls, p, payload, bs).host == None
  {
    ScanUpToNoMatch(ls, p, payload, bs, |ls|);
  }

  // ---------------------------------------------------------------------
  // The scan on the document's elements, in place
  // ---------------------------------------------------------------------

  /** The elements position k holds because of the appends: the payload's,
      at the last leaf that received them. */
  function Attached(host: Option<nat>, k: nat, nodes: seq<Node>): seq<Node>
  {
    if host == Some(k) then nodes else []
  }

  /** An element with its text set and elements appended to its children. */
  function Render(n: Node, text: Option<string>, extra: seq<Node>): (r: Node)
    ensures r.tag == n.tag && r.attrs == n.attrs && r.nsmap == n.nsmap
    ensures r.text == text && r.children == n.children + extra
  {
    n.(text := text, children := n.children + extra)
  }

  /** Every element with its current text and the appended elements. */
  function RenderAll(orig: seq<Node>, texts: seq<Option<string>>, host: Option<nat>, nodes: seq<Node>): (r: seq<Node>)
    requires |orig| == |texts|
    ensures |r| == |orig|
    ensures forall k :: 0 <= k < |orig| ==> r[k] == Render(orig[k], texts[k], Attached(host, k, nodes))
  {
    seq(|orig|, k requires 0 <= k < |orig| => Render(orig[k], texts[k], Attached(host, k, nodes)))
  }

  /** Setting the text of one element. */
  lemma {:induction false} RenderText(orig: seq<Node>, texts: seq<Option<string>>, host: Option<nat>, nodes: seq<Node>, i: nat, t: Option<string>)
    requires |orig| == |texts| && i < |orig|
    ensures RenderAll(orig, texts[i := t], host, nodes)
         == RenderAll(orig, texts, host, nodes)[i := RenderAll(orig, texts, host, nodes)[i].(text := t)]
  {
  }

  /** lxml's `append` of elements that hang at the end of the children of
      `from`: an element has one parent, so they leave `from` and go, in
      order, to the end of the children of `to`. */
  method MoveNodes(leaves: array<Node>, from: Option<nat>, to: nat, nodes: seq<Node>,
                   ghost orig: seq<Node>, ghost texts: seq<Option<string>>)
    requires to < leaves.Length && |orig| == |texts| == leaves.Length
    requires from.Some? ==> from.value < leaves.Length
    requires leaves[..] == RenderAll(orig, texts, from, nodes)
    modifies leaves
    ensures leaves[..] == RenderAll(orig, texts, Some(to), nodes)
  {
    ghost var before := leaves[..];
    ghost var detached := RenderAll(orig, texts, None, nodes);
    if from.Some? {
      var q := from.value;
      var cs := leaves[q].children;
      assert leaves[q] == before[q];
      assert cs[..|cs| - |nodes|] == orig[q].children;
      leaves[q] := leaves[q].(children := cs[..|cs| - |nodes|]);
      forall k | 0 <= k < leaves.Length ensures leaves[k] == detached[k] {
        if k != q {
          assert leaves[k] == before[k];
        }
      }
    } else {
      forall k | 0 <= k < leaves.Length ensures leaves[k] == detached[k] {
        assert leaves[k] == before[k];
      }
    }
    assert leaves[..] == detached;
    leaves[to] := leaves[to].(children := leaves[to].children + nodes);
    ghost var attached := RenderAll(orig, texts, Some(to), nodes);
    forall k | 0 <= k < leaves.Length ensures leaves[k] == attached[k] {
      if k != to {
        assert leaves[k] == detached[k];
      }
    }
  }

  /** The host position if it lies among the first j leaves of the block. */
  function Upto(h: Option<nat>, j: nat): Option<nat>
  {
    if h.Some? && h.value < j then h else None
  }

  /** Rewriting one more leaf of the block. */
  lemma {:induction false} RewriteExtend(texts: seq<Option<string>>, e: seq<nat>, j: nat, h: Option<nat>, hostText: string)
    requires Increasing(e) && forall k :: 0 <= k < |e| ==> e[k] < |texts|
    requires j < |e| && (h.Some? ==> h.value < |e|)
    ensures Rewrite(texts, e[..j + 1], Upto(h, j + 1), hostText)
         == Rewrite(texts, e[..j], Upto(h, j), hostText)[e[j] := if h == Some(j) then Some(hostText) else Some("")]
  {
    var a := Rewrite(texts, e[..j + 1], Upto(h, j + 1), hostText);
    var b := Rewrite(texts, e[..j], Upto(h, j), hostText)[e[j] := if h == Some(j) then Some(hostText) else Some("")];
    forall k | 0 <= k < |texts| ensures a[k] == b[k] {
      if k in e[..j + 1] {
        var m :| 0 <= m < j + 1 && e[m] == k;
        if m < j {
          assert e[..j][m] == k;
        }
      } else {
        assert k !in e[..j];
      }
    }
  }

  /** Setting the text of element i in place. */
  method SetText(leaves: array<Node>, i: nat, t: Option<string>,
                 ghost orig: seq<Node>, ghost cur: seq<Option<string>>, host: Option<nat>, ghost nodes: seq<Node>)
    requires i < leaves.Length && |orig| == |cur| == leaves.Length
    requires leaves[..] == RenderAll(orig, cur, host, nodes)
    modifies leaves
    ensures leaves[..] == RenderAll(orig, cur[i := t], host, nodes)
  {
    RenderText(orig, cur, host, nodes, i, t);
    leaves[i] := leaves[i].(text := t);
  }

  /** The running-length search moves on by one leaf. */
  lemma {:induction false} HostAdvance(ts: seq<string>, start: nat, j: nat)
    requires j < |ts| && |Concat(ts[..j])| <= start
    ensures |Concat(ts[..j + 1])| > start ==> HostFrom(ts, start, j) == Some(j)
    ensures |Concat(ts[..j + 1])| <= start ==> HostFrom(ts, start, j) == HostFrom(ts, start, j + 1)
  {
  }

  /** The loop state of `Place` after the first j leaves of the block:
      `curlen` is their total length, `replaced` says whether the host is
      among them, and `cur` holds the texts with those j leaves rewritten. */
  ghost predicate PlaceInv(texts: seq<Option<string>>, e: seq<nat>, ts: seq<string>, h: Option<nat>,
                           start: nat, hostText: string,
                           lastHost: Option<nat>, j: nat, curlen: nat, replaced: bool,
                           host: Option<nat>, cur: seq<Option<string>>)
    requires Increasing(e) && forall k :: 0 <= k < |e| ==> e[k] < |texts|
    requires |ts| == |e| && (h.Some? ==> h.value < |e|)
  {
    && j <= |e|
    && (host.Some? ==> host.value < |texts|)
    && curlen == |Concat(ts[..j])|
    && replaced == (curlen > start)
    && (!replaced ==> HostFrom(ts, start, j) == h && host == lastHost)
    && (replaced ==> h.Some? && h.value < j && host == Some(e[h.value]))
    && cur == Rewrite(texts, e[..j], Upto(h, j), hostText)
  }

  /** Before the first leaf nothing is rewritten and the host is unchanged. */
  lemma {:induction false} PlaceInvStart(texts: seq<Option<string>>, e: seq<nat>, ts: seq<string>, h: Option<nat>,
                                         start: nat, hostText: string, lastHost: Option<nat>)
    requires Increasing(e) && forall k :: 0 <= k < |e| ==> e[k] < |texts|
    requires ts == TextsAt(texts, e) && h == HostOf(ts, start)
    requires lastHost.Some? ==> lastHost.value < |texts|
    ensures PlaceInv(texts, e, ts, h, start, hostText, lastHost, 0, 0, false, lastHost, texts)
  {
    assert ts[..0] == [] && e[..0] == [];
    assert Rewrite(texts, e[..0], Upto(h, 0), hostText) == texts;
  }

  /** After the last leaf the whole block is rewritten, and the host is the
      leaf the match starts in, if any. */
  lemma {:induction false} PlaceInvDone(texts: seq<Option<string>>, e: seq<nat>, ts: seq<string>, h: Option<nat>,
                                        start: nat, hostText: string,
                                        lastHost: Option<nat>, curlen: nat, replaced: bool,
                                        host: Option<nat>, cur: seq<Option<string>>)
    requires Increasing(e) && forall k :: 0 <= k < |e| ==> e[k] < |texts|
    requires ts == TextsAt(texts, e) && h == HostOf(ts, start)
    requires PlaceInv(texts, e, ts, h, start, hostText, lastHost, |e|, curlen, replaced, host, cur)
    ensures host == if h.Some? then Some(e[h.value]) else lastHost
    ensures cur == Rewrite(texts, e, h, hostText)
  {
    assert e[..|e|] == e;
  }

  /** One leaf of the block: it still holds its original text, and the
      loop state moves on with it made the host or emptied. */
  lemma {:induction false} PlaceStep(texts: seq<Option<string>>, e: seq<nat>, ts: seq<string>, h: Option<nat>,
                  start: nat, hostText: string,
                  lastHost: Option<nat>, j: nat, curlen: nat, replaced: bool,
                  host: Option<nat>, cur: seq<Option<string>>)
    requires Increasing(e) && forall k :: 0 <= k < |e| ==> e[k] < |texts|
    requires ts == TextsAt(texts, e) && h == HostOf(ts, start)
    requires j < |e|
    requires PlaceInv(texts, e, ts, h, start, hostText, lastHost, j, curlen, replaced, host, cur)
    ensures |cur| == |texts| && TextValue(cur[e[j]]) == ts[j]
    ensures var len := curlen + |ts[j]|;
            len > start && !replaced ==>
              PlaceInv(texts, e, ts, h, start, hostText, lastHost, j + 1, len, true, Some(e[j]), cur[e[j] := Some(hostText)])
    ensures var len := curlen + |ts[j]|;
            !(len > start && !replaced) ==>
              PlaceInv(texts, e, ts, h, start, hostText, lastHost, j + 1, len, replaced, host, cur[e[j] := Some("")])
  {
    RewriteExtend(texts, e, j, h, hostText);
    assert e[j] !in e[..j];
    RunningLength(ts, j);
    if !replaced {
      HostAdvance(ts, start, j);
    }
  }

  /** One leaf of the block, in place: the first whose running length
      passes `start` becomes the host, with the substituted text and the
      payload's elements; any other is emptied. */
  method PlaceLeaf(leaves: array<Node>, e: seq<nat>, j: nat, hostText: string, payload: Payload, start: nat,
                   lastHost: Option<nat>, ghost orig: seq<Node>, ghost texts: seq<Option<string>>,
                   ghost ts: seq<string>, ghost h: Option<nat>,
                   curlen: nat, replaced: bool, host: Option<nat>, ghost cur: seq<Option<string>>)
    returns (curlen': nat, replaced': bool, host': Option<nat>, ghost cur': seq<Option<string>>)
    requires |orig| == |texts| == leaves.Length
    requires Increasing(e) && forall k :: 0 <= k < |e| ==> e[k] < leaves.Length
    requires ts == TextsAt(texts, e) && h == HostOf(ts, start)
    requires j < |e|
    requires PlaceInv(texts, e, ts, h, start, hostText, lastHost, j, curlen, replaced, host, cur)
    requires leaves[..] == RenderAll(orig, cur, host, PayloadNodes(payload))
    modifies leaves
    ensures PlaceInv(texts, e, ts, h, start, hostText, lastHost, j + 1, curlen', replaced', host', cur')
    ensures leaves[..] == RenderAll(orig, cur', host', PayloadNodes(payload))
  {
    var i := e[j];
    PlaceStep(texts, e, ts, h, start, hostText, lastHost, j, curlen, replaced, host, cur);
    assert leaves[i].text == cur[i];
    curlen' := curlen + |TextOf(leaves[i])|;
    if curlen' > start && !replaced {
      SetText(leaves, i, Some(hostText), orig, cur, host, PayloadNodes(payload));
      cur' := cur[i := Some(hostText)];
      if !payload.Text? {
        MoveNodes(leaves, host, i, PayloadNodes(payload), orig, cur');
      }
      replaced' := true;
      host' := Some(i);
    } else {
      SetText(leaves, i, Some(""), orig, cur, host, PayloadNodes(payload));
      cur' := cur[i := Some("")];
      replaced' := replaced;
      host' := host;
    }
  }

  /** The rewrite of one matching block (`e`, its positions): the running
      length `curlen` picks the host, which gets the block's text with the
      matches substituted and the payload's elements; every other leaf of
      the block is emptied. Returns the last leaf holding the elements. */
  method Place(leaves: array<Node>, e: seq<nat>, block: string, p: string, payload: Payload, start: nat,
               lastHost: Option<nat>, ghost orig: seq<Node>, ghost texts: seq<Option<string>>)
    returns (host: Option<nat>)
    requires |orig| == |texts| == leaves.Length
    requires Increasing(e) && forall k :: 0 <= k < |e| ==> e[k] < leaves.Length
    requires lastHost.Some? ==> lastHost.value < leaves.Length
    requires leaves[..] == RenderAll(orig, texts, lastHost, PayloadNodes(payload))
    modifies leaves
    ensures host == if HostOf(TextsAt(texts, e), start).Some? then Some(e[HostOf(TextsAt(texts, e), start).value])
                    else lastHost
    ensures leaves[..] == RenderAll(orig, Rewrite(texts, e, HostOf(TextsAt(texts, e), start), HostText(payload, block, p)),
                                    host, PayloadNodes(payload))
  {
    var hostText := HostText(payload, block, p);
    ghost var cur := texts;
    var curlen: nat := 0;
    var replaced := false;
    host := lastHost;
    var j: nat := 0;
    ghost var ts := TextsAt(texts, e);
    ghost var h := HostOf(ts, start);
    PlaceInvStart(texts, e, ts, h, start, hostText, lastHost);
    while j < |e|
      invariant PlaceInv(texts, e, ts, h, start, hostText, lastHost, j, curlen, replaced, host, cur)
      invariant leaves[..] == RenderAll(orig, cur, host, PayloadNodes(payload))
      decreases |e| - j
    {
      curlen, replaced, host, cur :=
        PlaceLeaf(leaves, e, j, hostText, payload, start, lastHost, orig, texts, ts, h, curlen, replaced, host, cur);
      j := j + 1;
    }
    PlaceInvDone(texts, e, ts, h, start, hostText, lastHost, curlen, replaced, host, cur);
  }

  /** One more text of a run adds itself to the run's concatenation. */
  lemma {:induction false} ConcatStep(ts: seq<string>, s: nat, k: nat)
    requires s <= k < |ts|
    ensures Concat(ts[s..k + 1]) == Concat(ts[s..k]) + ts[k]
  {
    assert ts[s..k + 1] == ts[s..k] + [ts[k]];
    ConcatAppend(ts[s..k], [ts[k]]);
    ConcatSingle(ts[k]);
  }

  /** The text of the block of `l` window leaves starting at `s`, read
      leaf by leaf. */
  method BlockText(leaves: array<Node>, w: seq<nat>, s: nat, l: nat, ghost ts: seq<string>) returns (txt: string)
    requires |ts| == |w| && forall k :: 0 <= k < |w| ==> w[k] < leaves.Length && TextOf(leaves[w[k]]) == ts[k]
    requires s + l <= |w|
    ensures txt == Concat(ts[s..s + l])
  {
    txt := "";
    var k := s;
    while k < s + l
      invariant s <= k <= s + l
      invariant txt == Concat(ts[s..k])
    {
      txt := txt + TextOf(leaves[w[k]]);
      ConcatStep(ts, s, k);
      k := k + 1;
    }
  }

  /** The search of the window in the order of the nested loops: block
      lengths from 1 up, and for each length every start from the left,
      until a block's text contains the pattern. Returns the block and the
      concatenated text it was found in. */
  method FindSpan(leaves: array<Node>, w: seq<nat>, p: string, ghost ts: seq<string>)
    returns (found: Option<(nat, nat)>, txt: string)
    requires |ts| == |w| && forall k :: 0 <= k < |w| ==> w[k] < leaves.Length && TextOf(leaves[w[k]]) == ts[k]
    ensures found == FirstSpan(ts, p)
    ensures found.Some? ==> found.value.0 + found.value.1 <= |ts| && txt == Concat(ts[found.value.0..found.value.0 + found.value.1])
  {
    found := None;
    txt := "";
    var l := 1;
    while l <= |w| && found.None?
      invariant 1 <= l <= |w| + 1
      invariant found.None? ==> FirstSpan(ts, p) == FirstSpanFrom(ts, p, 0, l)
      invariant found.Some? ==> found == FirstSpan(ts, p) && found.value.0 + found.value.1 <= |ts| && txt == Concat(ts[found.value.0..found.value.0 + found.value.1])
      decreases |w| + 1 - l, if found.None? then 1 else 0
    {
      var s := 0;
      while s < |w| && found.None?
        invariant 0 <= s <= |w|
        invariant found.None? ==> FirstSpan(ts, p) == FirstSpanFrom(ts, p, s, l)
        invariant found.Some? ==> found == FirstSpan(ts, p) && found.value.0 + found.value.1 <= |ts| && txt == Concat(ts[found.value.0..found.value.0 + found.value.1])
        decreases |w| - s, if found.None? then 1 else 0
      {
        if s + l <= |w| {
          txt := BlockText(leaves, w, s, l, ts);
          if Find(txt, p).Some? {
            found := Some((s, l));
          }
        }
        s := s + 1;
      }
      if found.None? {
        assert FirstSpanFrom(ts, p, s, l) == FirstSpanFrom(ts, p, 0, l + 1);
      }
      l := l + 1;
    }
  }

  /** The rewrite, in place, of the block of `l` window leaves starting at
      `s`, whose text `txt` contains the pattern. */
  method RewriteFound(leaves: array<Node>, w: seq<nat>, s: nat, l: nat, txt: string, p: string, payload: Payload,
                      lastHost: Option<nat>, ghost orig: seq<Node>, ghost texts: seq<Option<string>>)
    returns (lastHost': Option<nat>, ghost texts': seq<Option<string>>)
    requires leaves.Length == |orig| == |texts|
    requires s + l <= |w| && Increasing(w) && forall k :: 0 <= k < |w| ==> w[k] < |texts|
    requires txt == Concat(TextsAt(texts, w)[s..s + l]) && Contains(txt, p)
    requires lastHost.Some? ==> lastHost.value < leaves.Length
    requires leaves[..] == RenderAll(orig, texts, lastHost, PayloadNodes(payload))
    modifies leaves
    ensures ScanState(texts', w, lastHost') == RewriteBlock(texts, lastHost, w, s, l, payload, p)
    ensures leaves[..] == RenderAll(orig, texts', lastHost', PayloadNodes(payload))
  {
    var e := w[s..s + l];
    BlockOfWindow(texts, w, s, l);
    assert Concat(TextsAt(texts, e)) == txt;
    var start := Find(txt, p).value;
    var h := HostOf(TextsAt(texts, e), start);
    lastHost' := Place(leaves, e, txt, p, payload, start, lastHost, orig, texts);
    texts' := Rewrite(texts, e, h, HostText(payload, txt, p));
    assert lastHost' == if h.Some? then Some(e[h.value]) else lastHost;
  }

  /** The search of a window just entered, and the rewrite of the first
      matching block, in place. */
  method SearchWindow(leaves: array<Node>, w: seq<nat>, p: string, payload: Payload,
                      lastHost: Option<nat>, ghost orig: seq<Node>, ghost texts: seq<Option<string>>)
    returns (lastHost': Option<nat>, ghost texts': seq<Option<string>>)
    requires leaves.Length == |orig| == |texts|
    requires Increasing(w) && forall k :: 0 <= k < |w| ==> w[k] < |texts|
    requires lastHost.Some? ==> lastHost.value < leaves.Length
    requires leaves[..] == RenderAll(orig, texts, lastHost, PayloadNodes(payload))
    modifies leaves
    ensures ScanState(texts', w, lastHost') == Search(texts, lastHost, w, payload, p)
    ensures leaves[..] == RenderAll(orig, texts', lastHost', PayloadNodes(payload))
  {
    lastHost', texts' := lastHost, texts;
    ghost var ts := TextsAt(texts, w);
    forall k | 0 <= k < |w| ensures TextOf(leaves[w[k]]) == ts[k] {
      assert leaves[w[k]] == RenderAll(orig, texts, lastHost, PayloadNodes(payload))[w[k]];
    }
    var found, txt := FindSpan(leaves, w, p, ts);
    FirstSpanIsFirst(ts, p);
    if found.Some? {
      lastHost', texts' := RewriteFound(leaves, w, found.value.0, found.value.1, txt, p, payload, lastHost, orig, texts);
    }
  }

  /** The visit of element idx, in place: a w:t leaf with non-empty text
      enters the window, the window is searched, and the first matching
      block is rewritten. */
  method Visit(leaves: array<Node>, p: string, payload: Payload, bs: int, idx: nat,
               searchels: seq<nat>, lastHost: Option<nat>, ghost orig: seq<Node>, ghost texts: seq<Option<string>>)
    returns (searchels': seq<nat>, lastHost': Option<nat>, ghost texts': seq<Option<string>>)
    requires idx < leaves.Length == |orig| == |texts|
    requires ScanUpTo(orig, p, payload, bs, idx) == ScanState(texts, searchels, lastHost)
    requires lastHost.Some? ==> lastHost.value < leaves.Length
    requires leaves[..] == RenderAll(orig, texts, lastHost, PayloadNodes(payload))
    modifies leaves
    ensures ScanState(texts', searchels', lastHost') == Visited(orig, p, payload, bs, idx)
    ensures leaves[..] == RenderAll(orig, texts', lastHost', PayloadNodes(payload))
  {
    searchels', lastHost', texts' := searchels, lastHost, texts;
    var element := leaves[idx];
    assert element.tag == orig[idx].tag && element.text == texts[idx];
    if element.tag == W_T && element.text.Some? && element.text.value != "" {
      searchels' := searchels + [idx];
      if |searchels'| > bs {
        searchels' := searchels'[1..];
      }
      assert searchels' == Slide(searchels, idx, bs);
      SlideIncreasing(searchels, idx, bs);
      lastHost', texts' := SearchWindow(leaves, searchels', p, payload, lastHost, orig, texts);
      assert Searched(orig, p, payload, bs, idx) == Search(texts, lastHost, searchels', payload, p);
    }
  }

  /** Before the scan, the elements are as the document holds them. */
  lemma {:induction false} RenderInitial(orig: seq<Node>, nodes: seq<Node>)
    ensures RenderAll(orig, Initial(orig).texts, None, nodes) == orig
  {
    forall k | 0 <= k < |orig| ensures Render(orig[k], Initial(orig).texts[k], Attached(None, k, nodes)) == orig[k] {
      assert orig[k].children + [] == orig[k].children;
    }
  }

  /** `advReplace` on the elements of a document in `document.iter()`
      order: after the scan every element holds the text the scan gives it,
      and the payload's elements hang at the end of the children of the last
      leaf that received them. */
  method AdvReplaceLeaves(leaves: array<Node>, p: string, payload: Payload, bs: int)
    modifies leaves
    ensures leaves[..] == RenderAll(old(leaves[..]), Scan(old(leaves[..]), p, payload, bs).texts,
                                    Scan(old(leaves[..]), p, payload, bs).host, PayloadNodes(payload))
  {
    ghost var orig := leaves[..];
    var searchels: seq<nat> := [];
    var lastHost: Option<nat> := None;
    ghost var texts := Initial(orig).texts;
    RenderInitial(orig, PayloadNodes(payload));
    var idx := 0;
    while idx < leaves.Length
      invariant idx <= leaves.Length
      invariant ScanUpTo(orig, p, payload, bs, idx) == ScanState(texts, searchels, lastHost)
      invariant lastHost.Some? ==> lastHost.value < idx
      invariant leaves[..] == RenderAll(orig, texts, lastHost, PayloadNodes(payload))
    {
      searchels, lastHost, texts := Visit(leaves, p, payload, bs, idx, searchels, lastHost, orig, texts);
      ScanWindow(orig, p, payload, bs, idx + 1);
      idx := idx + 1;
    }
  }
}
