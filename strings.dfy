/** String operations the package relies on: literal search and replace-all
    (the model of `re.search` / `re.sub` on a literal pattern), joining and
    splitting on a separator, path basenames, and decimal numerals. */
module Strings {
  import opened Wrappers

  /** The concatenation of a list of strings, in order. */
  function Concat(ss: seq<string>): string
  {
    if ss == [] then "" else ss[0] + Concat(ss[1..])
  }

  lemma {:induction false} ConcatAppend(a: seq<string>, b: seq<string>)
    ensures Concat(a + b) == Concat(a) + Concat(b)
  {
    if a == [] {
      assert a + b == b;
    } else {
      assert (a + b)[1..] == a[1..] + b;
      ConcatAppend(a[1..], b);
    }
  }

  lemma {:induction false} ConcatSingle(s: string)
    ensures Concat([s]) == s
  {
    assert [s][1..] == [];
  }

  /** `p` occurs in `t` starting at offset `k`. */
  predicate OccursAt(t: string, p: string, k: nat)
  {
    k + |p| <= |t| && t[k..k + |p|] == p
  }

  /** The offset of the first occurrence of `p` in `t` (the literal model of
      `match.start()` after `re.search`). */
  function Find(t: string, p: string): (r: Option<nat>)
    ensures r.Some? ==> OccursAt(t, p, r.value)
    ensures r.Some? ==> forall j: nat :: j < r.value ==> !OccursAt(t, p, j)
    ensures r.None? ==> forall j: nat :: !OccursAt(t, p, j)
    decreases |t|
  {
    if |t| < |p| then None
    else if t[..|p|] == p then Some(0)
    else
      OccursShift(t, p);
      match Find(t[1..], p)
      case None => None
      case Some(k) => Some(k + 1)
  }

  /** Past the first character, the occurrences in `t` are those in `t[1..]`,
      one offset further on. */
  lemma {:induction false} OccursShift(t: string, p: string)
    requires t != []
    ensures forall j: nat :: 0 < j ==> (OccursAt(t, p, j) <==> OccursAt(t[1..], p, j - 1))
  {
    forall j: nat | 0 < j ensures OccursAt(t, p, j) <==> OccursAt(t[1..], p, j - 1) {
      if j + |p| <= |t| {
        var a, b := t[j..j + |p|], t[1..][j - 1..j - 1 + |p|];
        forall m | 0 <= m < |p| ensures a[m] == b[m] {
          assert a[m] == t[j + m];
        }
        assert a == b;
      }
    }
  }

  /** `p` occurs somewhere in `t` (Python's `p in t`). */
  predicate Contains(t: string, p: string)
  {
    Find(t, p).Some?
  }

  /** A pattern holding a character the text lacks does not occur in it. */
  lemma {:induction false} AbsentChar(t: string, p: string, c: char)
    requires c in p && c !in t
    ensures !Contains(t, p)
  {
    var i :| 0 <= i < |p| && p[i] == c;
    forall k: nat ensures !OccursAt(t, p, k) {
      if k + |p| <= |t| {
        assert t[k..k + |p|][i] == t[k + i];
      }
    }
  }

  /** A pattern that occurs in a text occurs in any text around it. */
  lemma {:induction false} ContainsInfix(u: string, x: string, v: string, p: string)
    ensures Contains(x, p) ==> Contains(u + x + v, p)
  {
    if Contains(x, p) {
      var k := Find(x, p).value;
      var t := u + x + v;
      assert t[|u| + k..|u| + k + |p|] == x[k..k + |p|];
      assert OccursAt(t, p, |u| + k);
    }
  }

  /** A pattern that occurs in the concatenation of a block of a list
      occurs in the concatenation of the whole list. */
  lemma {:induction false} ContainsBlock(ss: seq<string>, a: nat, b: nat, p: string)
    requires a <= b <= |ss|
    ensures Contains(Concat(ss[a..b]), p) ==> Contains(Concat(ss), p)
  {
    ConcatSplit(ss, a, b);
    ContainsInfix(Concat(ss[..a]), Concat(ss[a..b]), Concat(ss[b..]), p);
  }

  /** Concatenating a list is concatenating its part before a, its block
      from a to b, and its part from b on. */
  lemma {:induction false} ConcatSplit(ss: seq<string>, a: nat, b: nat)
    requires a <= b <= |ss|
    ensures Concat(ss) == Concat(ss[..a]) + Concat(ss[a..b]) + Concat(ss[b..])
  {
    assert ss == ss[..a] + (ss[a..b] + ss[b..]);
    ConcatAppend(ss[..a], ss[a..b] + ss[b..]);
    ConcatAppend(ss[a..b], ss[b..]);
  }

  /** Every non-overlapping occurrence of `p` in `t`, scanning left to right,
      replaced by `r`; an empty `p` matches before every character and at the
      end, as `re.sub('', r, t)` does. */
  function ReplaceAll(t: string, p: string, r: string): string
    decreases |t|
  {
    if p == [] then
      (if t == [] then r else r + [t[0]] + ReplaceAll(t[1..], p, r))
    else if |t| < |p| then t
    else if t[..|p|] == p then r + ReplaceAll(t[|p|..], p, r)
    else [t[0]] + ReplaceAll(t[1..], p, r)
  }

  /** With a non-empty pattern that does not occur, replace-all changes nothing. */
  lemma {:induction false} ReplaceAllNoMatch(t: string, p: string, r: string)
    requires p != [] && Find(t, p).None?
    ensures ReplaceAll(t, p, r) == t
    decreases |t|
  {
    if |t| >= |p| {
      assert t[..|p|] != p by { assert !OccursAt(t, p, 0); }
      ReplaceAllNoMatch(t[1..], p, r);
    }
  }

  /** Replace-all of a text whose first occurrence is at `k` (the offset
      Find returns): the text before it is kept, the occurrence becomes `r`,
      and scanning resumes right after it. */
  lemma {:induction false} ReplaceAllFromStart(t: string, p: string, r: string, k: nat)
    requires p != [] && OccursAt(t, p, k) && NoneBefore(t, p, k)
    ensures ReplaceAll(t, p, r) == t[..k] + r + ReplaceAll(t[k + |p|..], p, r)
  {
    ReplaceAllUpTo(t, p, r, 0, k);
    assert t[0..] == t;
    assert t[0..k] == t[..k];
  }

  /** No occurrence of `p` in `t` starts before `k`. */
  predicate NoneBefore(t: string, p: string, k: nat)
  {
    forall j: nat :: j < k ==> !OccursAt(t, p, j)
  }

  /** From any offset `i` up to an occurrence at `k` that no earlier
      occurrence precedes, replace-all copies the text up to `k`. */
  lemma {:induction false} ReplaceAllUpTo(t: string, p: string, r: string, i: nat, k: nat)
    requires p != [] && i <= k && OccursAt(t, p, k) && NoneBefore(t, p, k)
    ensures ReplaceAll(t[i..], p, r) == t[i..k] + r + ReplaceAll(t[k + |p|..], p, r)
    decreases k - i
  {
    if i == k {
      ReplaceAllHit(t, p, r, k);
      assert t[i..k] == [];
    } else {
      ReplaceAllUpTo(t, p, r, i + 1, k);
      assert !OccursAt(t, p, i);
      ReplaceAllUpToStep(t, p, r, i, k, ReplaceAll(t[k + |p|..], p, r));
    }
  }

  /** One character before the occurrence at `k`, where none starts. */
  lemma {:induction false} ReplaceAllUpToStep(t: string, p: string, r: string, i: nat, k: nat, rest: string)
    requires p != [] && i < k && k + |p| <= |t| && !OccursAt(t, p, i)
    requires ReplaceAll(t[i + 1..], p, r) == t[i + 1..k] + r + rest
    ensures ReplaceAll(t[i..], p, r) == t[i..k] + r + rest
  {
    ReplaceAllMiss(t, p, r, i);
    assert t[i..k] == [t[i]] + t[i + 1..k];
    ConsConcat(t[i], t[i + 1..k], r, rest);
  }

  /** At an occurrence, replace-all emits the replacement and goes on after it. */
  lemma {:induction false} ReplaceAllHit(t: string, p: string, r: string, k: nat)
    requires p != [] && OccursAt(t, p, k)
    ensures ReplaceAll(t[k..], p, r) == r + ReplaceAll(t[k + |p|..], p, r)
  {
    var s := t[k..];
    assert s[..|p|] == p && s[|p|..] == t[k + |p|..];
  }

  /** Where no occurrence starts but the text is long enough for one,
      replace-all keeps the character and goes on after it. */
  lemma {:induction false} ReplaceAllMiss(t: string, p: string, r: string, i: nat)
    requires p != [] && i + |p| <= |t| && !OccursAt(t, p, i)
    ensures ReplaceAll(t[i..], p, r) == [t[i]] + ReplaceAll(t[i + 1..], p, r)
  {
    var s := t[i..];
    assert s[..|p|] == t[i..i + |p|];
    assert s[1..] == t[i + 1..];
  }

  /** Concatenation regrouped after a leading character. */
  lemma {:induction false} ConsConcat(c: char, a: string, b: string, d: string)
    ensures [c] + (a + b + d) == ([c] + a) + b + d
  {
  }

  /** Replacing every occurrence of a pattern by itself is the identity. */
  lemma {:induction false} ReplaceAllSelf(t: string, p: string)
    ensures ReplaceAll(t, p, p) == t
    decreases |t|
  {
    if p == [] {
      if t != [] {
        ReplaceAllSelf(t[1..], p);
        assert t == [t[0]] + t[1..];
      }
    } else if |t| >= |p| {
      if t[..|p|] == p {
        ReplaceAllSelf(t[|p|..], p);
        assert t == t[..|p|] + t[|p|..];
      } else {
        ReplaceAllSelf(t[1..], p);
        assert t == [t[0]] + t[1..];
      }
    }
  }

  /** Python's `sep.join(ks)` for a one-character separator. */
  function Join(ks: seq<string>, sep: char): string
  {
    if |ks| == 0 then ""
    else if |ks| == 1 then ks[0]
    else ks[0] + [sep] + Join(ks[1..], sep)
  }

  /** Python's `s.split(sep)`: the pieces between separators; never empty. */
  function Split(s: string, sep: char): (r: seq<string>)
    ensures |r| > 0
    decreases |s|
  {
    if s == "" then [""]
    else
      var rest := Split(s[1..], sep);
      if s[0] == sep then [""] + rest else [[s[0]] + rest[0]] + rest[1..]
  }

  lemma {:induction false} SplitNoSep(a: string, sep: char)
    requires sep !in a
    ensures Split(a, sep) == [a]
    decreases |a|
  {
    if a != "" {
      SplitNoSep(a[1..], sep);
      assert a == [a[0]] + a[1..];
    }
  }

  lemma {:induction false} SplitAfterPiece(a: string, b: string, sep: char)
    requires sep !in a
    ensures Split(a + [sep] + b, sep) == [a] + Split(b, sep)
    decreases |a|
  {
    if a == "" {
      assert a + [sep] + b == [sep] + b;
      assert ([sep] + b)[1..] == b;
    } else {
      assert (a + [sep] + b)[1..] == a[1..] + [sep] + b;
      SplitAfterPiece(a[1..], b, sep);
      assert a == [a[0]] + a[1..];
    }
  }

  /** Splitting a join gives back the pieces when no piece holds the separator. */
  lemma {:induction false} SplitJoin(ks: seq<string>, sep: char)
    requires |ks| > 0
    requires forall i :: 0 <= i < |ks| ==> sep !in ks[i]
    ensures Split(Join(ks, sep), sep) == ks
  {
    if |ks| == 1 {
      SplitNoSep(ks[0], sep);
    } else {
      SplitJoin(ks[1..], sep);
      SplitAfterPiece(ks[0], Join(ks[1..], sep), sep);
      assert ks == [ks[0]] + ks[1..];
    }
  }

  /** `os.path.basename`: the part after the last '/'. */
  function Basename(path: string): (r: string)
    ensures '/' !in r && |r| <= |path|
  {
    if path == "" then ""
    else if path[|path| - 1] == '/' then ""
    else Basename(path[..|path| - 1]) + [path[|path| - 1]]
  }

  /** The base name is the suffix after the last '/', or the whole path
      when it has none. */
  lemma {:induction false} BasenameIsLastSegment(path: string)
    ensures var r := Basename(path);
            path[|path| - |r|..] == r && (|r| < |path| ==> path[|path| - |r| - 1] == '/')
  {
    if path != "" && path[|path| - 1] != '/' {
      var init := path[..|path| - 1];
      BasenameIsLastSegment(init);
      var r := Basename(init);
      assert path[|path| - |r| - 1..] == init[|init| - |r|..] + [path[|path| - 1]];
    }
  }

  function DigitChar(d: nat): char
    requires d < 10
  {
    "0123456789"[d]
  }

  function DigitValue(c: char): nat
  {
    if '0' <= c <= '9' then (c as int - '0' as int) as nat else 0
  }

  /** Python's `str(n)` for a natural number. */
  function NatToString(n: nat): string
  {
    if n < 10 then [DigitChar(n)] else NatToString(n / 10) + [DigitChar(n % 10)]
  }

  /** Python's `str(i)` for an integer. */
  function IntToString(i: int): string
  {
    if i < 0 then "-" + NatToString(-i) else NatToString(i)
  }

  /** The value of a string of decimal digits (the inverse of `NatToString`). */
  function DecimalValue(s: string): nat
  {
    if s == "" then 0 else DecimalValue(s[..|s| - 1]) * 10 + DigitValue(s[|s| - 1])
  }

  lemma {:induction false} DecimalValueOfNatToString(n: nat)
    ensures DecimalValue(NatToString(n)) == n
  {
    var s := NatToString(n);
    if n < 10 {
      assert s[..0] == "";
    } else {
      DecimalValueOfNatToString(n / 10);
      assert s[..|s| - 1] == NatToString(n / 10);
    }
  }

  /** Distinct numbers have distinct numerals. */
  lemma {:induction false} NatToStringInjective(m: nat, n: nat)
    requires NatToString(m) == NatToString(n)
    ensures m == n
  {
    DecimalValueOfNatToString(m);
    DecimalValueOfNatToString(n);
  }
}
