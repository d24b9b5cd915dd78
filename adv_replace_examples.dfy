/** The worked examples of `advReplace`'s documentation: the three runs
    'Hel', 'lo,' and ' world!', searched with a window of three runs. */
module AdvReplaceExamples {
  import opened Wrappers
  import opened XmlTree
  import opened Strings
  import opened Namespaces
  import opened AdvReplace

  /** A w:t leaf holding `t`. */
  function TextLeaf(t: string): (n: Node)
    ensures n.tag == W_T && n.text == Some(t)
  {
    Node(W_T, map[], map[], Some(t), [])
  }

  /** The three runs 'Hel', 'lo,' and ' world!'. */
  function HelloWorld(): (ls: seq<Node>)
    ensures |ls| == 3 && forall k :: 0 <= k < 3 ==> ls[k].tag == W_T
    ensures Initial(ls).texts == [Some("Hel"), Some("lo,"), Some(" world!")]
  {
    var ls := [TextLeaf("Hel"), TextLeaf("lo,"), TextLeaf(" world!")];
    assert Initial(ls).texts == [Some("Hel"), Some("lo,"), Some(" world!")];
    ls
  }

  /** The runs as the document gives them. */
  const T0: seq<Option<string>> := [Some("Hel"), Some("lo,"), Some(" world!")]

  /** One visit of a leaf with non-empty text: the scan's state after it
      is the search of the window `w` the leaf enters. */
  lemma {:induction false} EnterStep(ls: seq<Node>, p: string, payload: Payload, bs: int, idx: nat,
                                    before: ScanState, w: seq<nat>, after: ScanState)
    requires idx < |ls| && ScanUpTo(ls, p, payload, bs, idx) == before
    requires ls[idx].tag == W_T && NonEmpty(before.texts[idx])
    requires Slide(before.window, idx, bs) == w
    requires Increasing(w) && forall k :: 0 <= k < |w| ==> w[k] < |before.texts|
    requires Search(before.texts, before.host, w, payload, p) == after
    ensures ScanUpTo(ls, p, payload, bs, idx + 1) == after
  {
    SlideIncreasing(before.window, idx, bs);
    assert Searched(ls, p, payload, bs, idx) == after;
  }

  /** A scan with a window of three over three w:t leaves whose texts stay
      non-empty until visited, given the search that follows each visit. */
  lemma {:induction false} ThreeVisits(ls: seq<Node>, p: string, payload: Payload, s1: ScanState, s2: ScanState, s3: ScanState)
    requires |ls| == 3 && forall k :: 0 <= k < 3 ==> ls[k].tag == W_T
    requires NonEmpty(ls[0].text)
    requires Search(Initial(ls).texts, None, [0], payload, p) == s1
    requires |s1.texts| == 3 && s1.window == [0] && NonEmpty(s1.texts[1])
    requires Search(s1.texts, s1.host, [0, 1], payload, p) == s2
    requires |s2.texts| == 3 && s2.window == [0, 1] && NonEmpty(s2.texts[2])
    requires Search(s2.texts, s2.host, [0, 1, 2], payload, p) == s3
    ensures Scan(ls, p, payload, 3) == s3
  {
    FirstVisit(ls, p, payload, s1);
    EnterStep(ls, p, payload, 3, 1, s1, [0, 1], s2);
    assert ScanUpTo(ls, p, payload, 3, 2) == s2;
    LastVisit(ls, p, payload, s2, s3);
  }

  /** The first leaf enters the empty window. */
  lemma {:induction false} FirstVisit(ls: seq<Node>, p: string, payload: Payload, s1: ScanState)
    requires |ls| == 3 && ls[0].tag == W_T && NonEmpty(ls[0].text)
    requires Search(Initial(ls).texts, None, [0], payload, p) == s1
    ensures ScanUpTo(ls, p, payload, 3, 1) == s1
  {
    var s0 := Initial(ls);
    assert ScanUpTo(ls, p, payload, 3, 0) == s0;
    EnterStep(ls, p, payload, 3, 0, s0, [0], s1);
  }

  /** The third leaf fills the window of three. */
  lemma {:induction false} LastVisit(ls: seq<Node>, p: string, payload: Payload, s2: ScanState, s3: ScanState)
    requires |ls| == 3 && ls[2].tag == W_T && ScanUpTo(ls, p, payload, 3, 2) == s2
    requires |s2.texts| == 3 && s2.window == [0, 1] && NonEmpty(s2.texts[2])
    requires Search(s2.texts, s2.host, [0, 1, 2], payload, p) == s3
    ensures Scan(ls, p, payload, 3) == s3
  {
    EnterStep(ls, p, payload, 3, 2, s2, [0, 1, 2], s3);
  }

  /** A search of a window whose text lacks a character of the pattern:
      nothing changes. */
  lemma {:induction false} SearchMisses(texts: seq<Option<string>>, host: Option<nat>, w: seq<nat>, payload: Payload,
                                       p: string, whole: string, c: char)
    requires Increasing(w) && forall k :: 0 <= k < |w| ==> w[k] < |texts|
    requires Concat(TextsAt(texts, w)) == whole && c in p && c !in whole
    ensures Search(texts, host, w, payload, p) == ScanState(texts, w, host)
  {
    AbsentChar(whole, p, c);
    SearchNoMatch(texts, host, w, payload, p);
  }

  /** The texts of the first leaf, of the first two, and of all three. */
  lemma {:induction false} Windows(t: seq<Option<string>>, a: string, b: string, c: string)
    requires t == [Some(a), Some(b), Some(c)]
    ensures TextsAt(t, [0]) == [a] && Concat(TextsAt(t, [0])) == a
    ensures TextsAt(t, [0, 1]) == [a, b] && Concat(TextsAt(t, [0, 1])) == a + b
    ensures TextsAt(t, [0, 1, 2]) == [a, b, c] && Concat(TextsAt(t, [0, 1, 2])) == a + b + c
  {
    assert TextsAt(t, [0]) == [a];
    assert TextsAt(t, [0, 1]) == [a, b];
    assert TextsAt(t, [0, 1, 2]) == [a, b, c];
    Concat1(a);
    Concat2(a, b);
    Concat3(a, b, c);
  }

  lemma {:induction false} Concat1(a: string)
    ensures Concat([a]) == a
  {
    ConcatSingle(a);
  }

  lemma {:induction false} Concat2(a: string, b: string)
    ensures Concat([a, b]) == a + b
  {
    assert [a, b] == [a] + [b];
    ConcatAppend([a], [b]);
    ConcatSingle(a);
    ConcatSingle(b);
  }

  lemma {:induction false} Concat3(a: string, b: string, c: string)
    ensures Concat([a, b, c]) == a + b + c
  {
    assert [a, b, c] == [a, b] + [c];
    ConcatAppend([a, b], [c]);
    Concat2(a, b);
    ConcatSingle(c);
  }

  // ---------------------------------------------------------------------
  // 'Hello,' / 'Hi!'
  // ---------------------------------------------------------------------

  /** 'Hello,' spans the first two runs: the first receives 'Hi!', the
      second is emptied, the third is kept. */
  lemma {:induction false} ExampleAcrossTwoRuns()
    ensures Scan(HelloWorld(), "Hello,", Text("Hi!"), 3).texts == [Some("Hi!"), Some(""), Some(" world!")]
  {
    var t1 := [Some("Hi!"), Some(""), Some(" world!")];
    AcrossTwoRunsFirst();
    AcrossTwoRunsFound();
    AcrossTwoRunsLast();
    ThreeVisits(HelloWorld(), "Hello,", Text("Hi!"),
                ScanState(T0, [0], None), ScanState(t1, [0, 1], Some(0)), ScanState(t1, [0, 1, 2], Some(0)));
  }

  /** 'Hel' alone does not hold 'Hello,'. */
  lemma {:induction false} AcrossTwoRunsFirst()
    ensures Search(T0, None, [0], Text("Hi!"), "Hello,") == ScanState(T0, [0], None)
  {
    Windows(T0, "Hel", "lo,", " world!");
    SearchMisses(T0, None, [0], Text("Hi!"), "Hello,", "Hel", ',');
  }

  /** Once 'lo,' enters, 'Hello,' matches the block of both runs: the first
      run is the host. */
  lemma {:induction false} AcrossTwoRunsFound()
    ensures Search(T0, None, [0, 1], Text("Hi!"), "Hello,")
         == ScanState([Some("Hi!"), Some(""), Some(" world!")], [0, 1], Some(0))
  {
    var ts := ["Hel", "lo,"];
    Windows(T0, "Hel", "lo,", " world!");
    AcrossTwoRunsSpan(ts, "Hello,");
    Concat2("Hel", "lo,");
    assert ts[0..2] == ts;
    assert Find("Hello,", "Hello,") == Some(0);
    assert HostOf(ts, 0) == Some(0) by {
      assert ts[..1] == ["Hel"];
      Concat1("Hel");
    }
    assert ReplaceAll("Hello,", "Hello,", "Hi!") == "Hi!";
  }

  /** The first block holding 'Hello,' is the block of both runs. */
  lemma {:induction false} AcrossTwoRunsSpan(ts: seq<string>, p: string)
    requires ts == ["Hel", "lo,"] && p == "Hello,"
    ensures FirstSpan(ts, p) == Some((0, 2))
  {
    Concat1("Hel");
    Concat1("lo,");
    Concat2("Hel", "lo,");
    assert ts[0..1] == ["Hel"] && ts[1..2] == ["lo,"] && ts[0..2] == ts;
    AbsentChar("Hel", p, ',');
    AbsentChar("lo,", p, 'H');
    assert Find("Hel" + "lo,", p) == Some(0);
    assert FirstSpanFrom(ts, p, 0, 2) == Some((0, 2));
    assert FirstSpanFrom(ts, p, 2, 1) == FirstSpanFrom(ts, p, 0, 2);
    assert FirstSpanFrom(ts, p, 1, 1) == FirstSpanFrom(ts, p, 2, 1);
    assert FirstSpanFrom(ts, p, 0, 1) == FirstSpanFrom(ts, p, 1, 1);
  }

  /** After the rewrite, no block of the three runs holds 'Hello,'. */
  lemma {:induction false} AcrossTwoRunsLast()
    ensures var t1 := [Some("Hi!"), Some(""), Some(" world!")];
            Search(t1, Some(0), [0, 1, 2], Text("Hi!"), "Hello,") == ScanState(t1, [0, 1, 2], Some(0))
  {
    var t1 := [Some("Hi!"), Some(""), Some(" world!")];
    Windows(t1, "Hi!", "", " world!");
    assert 'e' !in "Hi!" + "" + " world!";
    SearchMisses(t1, Some(0), [0, 1, 2], Text("Hi!"), "Hello,", "Hi!" + "" + " world!", 'e');
  }

  // ---------------------------------------------------------------------
  // 'Hello, world' / 'Hi!'
  // ---------------------------------------------------------------------

  /** 'Hello, world' spans all three runs: the first receives 'Hi!' and the
      '!' after the match, the other two are emptied. */
  lemma {:induction false} ExampleAcrossThreeRuns()
    ensures Scan(HelloWorld(), "Hello, world", Text("Hi!"), 3).texts == [Some("Hi!!"), Some(""), Some("")]
  {
    AcrossThreeRunsMisses();
    AcrossThreeRunsFound();
    ThreeVisits(HelloWorld(), "Hello, world", Text("Hi!"),
                ScanState(T0, [0], None), ScanState(T0, [0, 1], None),
                ScanState([Some("Hi!!"), Some(""), Some("")], [0, 1, 2], Some(0)));
  }

  /** With one or two runs in the window no block is long enough. */
  lemma {:induction false} AcrossThreeRunsMisses()
    ensures Search(T0, None, [0], Text("Hi!"), "Hello, world") == ScanState(T0, [0], None)
    ensures Search(T0, None, [0, 1], Text("Hi!"), "Hello, world") == ScanState(T0, [0, 1], None)
  {
    Windows(T0, "Hel", "lo,", " world!");
    SearchMisses(T0, None, [0], Text("Hi!"), "Hello, world", "Hel", 'w');
    SearchMisses(T0, None, [0, 1], Text("Hi!"), "Hello, world", "Hel" + "lo,", 'w');
  }

  /** Once ' world!' enters, only the block of all three runs holds
      'Hello, world': the first run is the host. */
  lemma {:induction false} AcrossThreeRunsFound()
    ensures Search(T0, None, [0, 1, 2], Text("Hi!"), "Hello, world")
         == ScanState([Some("Hi!!"), Some(""), Some("")], [0, 1, 2], Some(0))
  {
    var p := "Hello, world";
    var w := [0, 1, 2];
    var ts := ["Hel", "lo,", " world!"];
    var block := "Hello, world!";
    Windows(T0, "Hel", "lo,", " world!");
    AcrossThreeRunsSpan(ts, p);
    AcrossThreeRunsBlock(ts, p, block);
    ReplaceAtStart(block, p, "Hi!", "!");
    SearchRewrites(T0, None, w, Text("Hi!"), p, 0, 3, ts, block, Some(0), "Hi!!");
    AcrossThreeRunsRewrite();
  }

  /** The rewritten texts once 'Hello, world!' became 'Hi!!'. */
  lemma {:induction false} AcrossThreeRunsRewrite()
    ensures Rewrite(T0, [0, 1, 2], Some(0), "Hi!!") == [Some("Hi!!"), Some(""), Some("")]
  {
  }

  /** The block of all three runs holds 'Hello, world' at its start, inside
      the first run. */
  lemma {:induction false} AcrossThreeRunsBlock(ts: seq<string>, p: string, block: string)
    requires ts == ["Hel", "lo,", " world!"] && p == "Hello, world" && block == "Hello, world!"
    ensures Concat(ts) == block && Find(block, p) == Some(0) && HostOf(ts, 0) == Some(0)
  {
    Concat3("Hel", "lo,", " world!");
    assert Find(block, p) == Some(0);
    assert ts[..1] == ["Hel"];
    Concat1("Hel");
  }

  /** The search of a window whose first matching block, its text, first
      match, host and new host text are known. */
  lemma {:induction false} SearchRewrites(texts: seq<Option<string>>, host: Option<nat>, w: seq<nat>, payload: Payload,
                                         p: string, s: nat, l: nat, ts: seq<string>, block: string,
                                         h: Option<nat>, txt: string)
    requires Increasing(w) && forall k :: 0 <= k < |w| ==> w[k] < |texts|
    requires FirstSpan(TextsAt(texts, w), p) == Some((s, l)) && s + l <= |w|
    requires TextsAt(texts, w[s..s + l]) == ts && Concat(ts) == block
    requires Find(block, p).Some? && HostOf(ts, Find(block, p).value) == h && HostText(payload, block, p) == txt
    ensures Search(texts, host, w, payload, p)
         == ScanState(Rewrite(texts, w[s..s + l], h, txt), w, if h.Some? then Some(w[s..s + l][h.value]) else host)
  {
    BlockOfWindow(texts, w, s, l);
    assert Search(texts, host, w, payload, p) == RewriteBlock(texts, host, w, s, l, payload, p);
  }

  /** A text that starts with the pattern and leaves a shorter rest. */
  lemma {:induction false} ReplaceAtStart(t: string, p: string, r: string, rest: string)
    requires p != [] && t == p + rest && |rest| < |p|
    ensures ReplaceAll(t, p, r) == r + rest
  {
    assert t[..|p|] == p && t[|p|..] == rest;
  }

  /** The first block holding 'Hello, world' is the block of all three runs. */
  lemma {:induction false} AcrossThreeRunsSpan(ts: seq<string>, p: string)
    requires ts == ["Hel", "lo,", " world!"] && p == "Hello, world"
    ensures FirstSpan(ts, p) == Some((0, 3))
  {
    AcrossThreeRunsSingles(ts, p);
    AcrossThreeRunsPairs(ts, p);
    assert FirstSpanFrom(ts, p, 0, 3) == Some((0, 3));
    assert FirstSpanFrom(ts, p, 2, 2) == FirstSpanFrom(ts, p, 0, 3);
    assert FirstSpanFrom(ts, p, 1, 2) == FirstSpanFrom(ts, p, 2, 2);
    assert FirstSpanFrom(ts, p, 0, 2) == FirstSpanFrom(ts, p, 1, 2);
    assert FirstSpanFrom(ts, p, 3, 1) == FirstSpanFrom(ts, p, 0, 2);
    assert FirstSpanFrom(ts, p, 2, 1) == FirstSpanFrom(ts, p, 3, 1);
    assert FirstSpanFrom(ts, p, 1, 1) == FirstSpanFrom(ts, p, 2, 1);
    assert FirstSpanFrom(ts, p, 0, 1) == FirstSpanFrom(ts, p, 1, 1);
  }

  /** No single run holds 'Hello, world'. */
  lemma {:induction false} AcrossThreeRunsSingles(ts: seq<string>, p: string)
    requires ts == ["Hel", "lo,", " world!"] && p == "Hello, world"
    ensures !SpanMatches(ts, p, 0, 1) && !SpanMatches(ts, p, 1, 1) && !SpanMatches(ts, p, 2, 1)
  {
    Concat1("Hel");
    Concat1("lo,");
    Concat1(" world!");
    assert ts[0..1] == ["Hel"] && ts[1..2] == ["lo,"] && ts[2..3] == [" world!"];
    AbsentChar("Hel", p, 'w');
    AbsentChar("lo,", p, 'w');
    AbsentChar(" world!", p, 'H');
  }

  /** No two neighbouring runs hold 'Hello, world'; all three do. */
  lemma {:induction false} AcrossThreeRunsPairs(ts: seq<string>, p: string)
    requires ts == ["Hel", "lo,", " world!"] && p == "Hello, world"
    ensures !SpanMatches(ts, p, 0, 2) && !SpanMatches(ts, p, 1, 2) && SpanMatches(ts, p, 0, 3)
  {
    Concat2("Hel", "lo,");
    Concat2("lo,", " world!");
    assert ts[0..2] == ["Hel", "lo,"] && ts[1..3] == ["lo,", " world!"];
    AbsentChar("Hel" + "lo,", p, 'w');
    AbsentChar("lo," + " world!", p, 'H');
    AcrossThreeRunsWhole(ts, p);
  }

  /** The text of all three runs starts with 'Hello, world'. */
  lemma {:induction false} AcrossThreeRunsWhole(ts: seq<string>, p: string)
    requires ts == ["Hel", "lo,", " world!"] && p == "Hello, world"
    ensures SpanMatches(ts, p, 0, 3)
  {
    Concat3("Hel", "lo,", " world!");
    assert ts[0..3] == ts;
    FindAtStart("Hel" + "lo," + " world!", p, "!");
  }

  /** A text that starts with the pattern has its first match at 0. */
  lemma {:induction false} FindAtStart(t: string, p: string, rest: string)
    requires t == p + rest
    ensures Find(t, p) == Some(0)
  {
    assert t[..|p|] == p;
  }

  // ---------------------------------------------------------------------
  // 'Hel' / 'Hal'
  // ---------------------------------------------------------------------

  /** 'Hel' lies inside the first run: only that run changes. */
  lemma {:induction false} ExampleInOneRun()
    ensures Scan(HelloWorld(), "Hel", Text("Hal"), 3).texts == [Some("Hal"), Some("lo,"), Some(" world!")]
  {
    var t1 := [Some("Hal"), Some("lo,"), Some(" world!")];
    InOneRunFound();
    InOneRunMisses();
    ThreeVisits(HelloWorld(), "Hel", Text("Hal"),
                ScanState(t1, [0], Some(0)), ScanState(t1, [0, 1], Some(0)), ScanState(t1, [0, 1, 2], Some(0)));
  }

  /** Once 'Hel' enters, the run itself matches and becomes the host. */
  lemma {:induction false} InOneRunFound()
    ensures Search(T0, None, [0], Text("Hal"), "Hel") == ScanState([Some("Hal"), Some("lo,"), Some(" world!")], [0], Some(0))
  {
    var ts := ["Hel"];
    Windows(T0, "Hel", "lo,", " world!");
    assert ts[0..1] == ts;
    assert Find("Hel", "Hel") == Some(0);
    assert FirstSpan(ts, "Hel") == Some((0, 1));
    assert HostOf(ts, 0) == Some(0) by {
      assert ts[..1] == ts;
    }
    assert ReplaceAll("Hel", "Hel", "Hal") == "Hal";
  }

  /** After the rewrite no window holds 'Hel' any more. */
  lemma {:induction false} InOneRunMisses()
    ensures var t1 := [Some("Hal"), Some("lo,"), Some(" world!")];
            Search(t1, Some(0), [0, 1], Text("Hal"), "Hel") == ScanState(t1, [0, 1], Some(0))
    ensures var t1 := [Some("Hal"), Some("lo,"), Some(" world!")];
            Search(t1, Some(0), [0, 1, 2], Text("Hal"), "Hel") == ScanState(t1, [0, 1, 2], Some(0))
  {
    var t1 := [Some("Hal"), Some("lo,"), Some(" world!")];
    Windows(t1, "Hal", "lo,", " world!");
    assert 'e' !in "Hal" + "lo,";
    assert 'e' !in "Hal" + "lo," + " world!";
    SearchMisses(t1, Some(0), [0, 1], Text("Hal"), "Hel", "Hal" + "lo,", 'e');
    SearchMisses(t1, Some(0), [0, 1, 2], Text("Hal"), "Hel", "Hal" + "lo," + " world!", 'e');
  }
}
