/** The stand-alone variant of the title cleaner: the same full-width fold, then
    one `re.sub` pass that joins a CJK run, an ASCII word and a CJK run in a single
    match, two passes for a word on one side only, and the same hyphen passes. */
module ScratchCleaner {
  import opened Outcomes
  import opened Text
  import opened ReSub
  import opened CleanRules

  function CleanFilename(filename: string): string {
    var folded := FoldFullwidth(filename);
    var s1 := Pass(SpaceBetweenCjk, folded);
    var s2 := Pass(SpaceAroundAlnumRun, s1);
    var s3 := Pass(SpaceCjkRunAlnumRun, s2);
    var s4 := Pass(SpaceAlnumRunCjkRun, s3);
    var s5 := Pass(DashBetweenCjk, s4);
    Pass(DashAfterCjk, s5)
  }

  /** No character of the full-width table survives cleaning. */
  lemma CleanRemovesFullwidth(filename: string)
    ensures NoFullwidth(CleanFilename(filename))
  {
    RuleTemplateChars();
    var folded := FoldFullwidth(filename);
    var s1 := Pass(SpaceBetweenCjk, folded);
    var s2 := Pass(SpaceAroundAlnumRun, s1);
    var s3 := Pass(SpaceCjkRunAlnumRun, s2);
    var s4 := Pass(SpaceAlnumRunCjkRun, s3);
    var s5 := Pass(DashBetweenCjk, s4);
    assert NoFullwidth(s1) && NoFullwidth(s2) && NoFullwidth(s3) && NoFullwidth(s4);
    assert NoFullwidth(s5);
  }

  /** Cleaning never lengthens a title. */
  lemma CleanNeverLonger(filename: string)
    ensures |CleanFilename(filename)| <= |filename|
  {
  }

  /** A title with no table character and no CJK character is returned unchanged. */
  lemma CleanKeepsPlainTitle(filename: string)
    requires NoFullwidth(filename) && NoCjk(filename)
    ensures CleanFilename(filename) == filename
  {
  }

  /** The six passes one by one, for the worked examples below. */
  lemma Passes(filename: string, s1: string, s2: string, s3: string, s4: string, s5: string, r: string)
    requires NoFullwidth(filename)
    requires s1 == Sub(SpaceBetweenCjk, filename)
    requires s2 == Sub(SpaceAroundAlnumRun, s1)
    requires s3 == Sub(SpaceCjkRunAlnumRun, s2)
    requires s4 == Sub(SpaceAlnumRunCjkRun, s3)
    requires s5 == Sub(DashBetweenCjk, s4)
    requires r == Sub(DashAfterCjk, s5)
    ensures CleanFilename(filename) == r
  {
    assert FoldFullwidth(filename) == filename;
    assert Pass(SpaceBetweenCjk, filename) == s1;
    assert Pass(SpaceAroundAlnumRun, s1) == s2;
    assert Pass(SpaceCjkRunAlnumRun, s2) == s3;
    assert Pass(SpaceAlnumRunCjkRun, s3) == s4;
    assert Pass(DashBetweenCjk, s4) == s5;
    assert Pass(DashAfterCjk, s5) == r;
  }

  /** The one match of `(CJK+)\s+([a-zA-Z0-9]+)\s*(CJK+)` in "测试 test 剧集" starts at 0. */
  lemma JoinAroundWordMatch(a: char, b: char, w: string, c: char, d: char, s: string)
    requires IsCjk(a) && IsCjk(b) && IsCjk(c) && IsCjk(d) && IsAlnumWord(w)
    requires s == [a, b] + " " + w + " " + [c, d]
    ensures MatchAt(SpaceAroundAlnumRun.pattern, s, 0) == Some(Match(6 + |w|, [[a, b], w, [c, d]]))
  {
    var n := |w|;
    assert s[0..2] == [a, b] && s[3..3 + n] == w && s[4 + n..6 + n] == [c, d];
    assert forall t :: 3 <= t < 3 + n ==> s[t] == w[t - 3];
    assert s[2] == ' ' && s[3 + n] == ' ' && s[4 + n] == c && s[5 + n] == d;
    TripleMatch(s, 0, 2, 3, 3 + n, 4 + n, 6 + n);
  }

  /** `(CJK+)\s+([a-zA-Z0-9]+)\s*(CJK+)` joins the whole of "测试 test 剧集" in one match. */
  lemma JoinAroundWord(a: char, b: char, w: string, c: char, d: char, s: string)
    requires IsCjk(a) && IsCjk(b) && IsCjk(c) && IsCjk(d) && IsAlnumWord(w)
    requires s == [a, b] + " " + w + " " + [c, d]
    ensures Sub(SpaceAroundAlnumRun, s) == [a, b] + w + [c, d]
  {
    var n := |w|;
    assert s[..0] + ([a, b] + w + [c, d]) + s[6 + n..] == [a, b] + w + [c, d];
    JoinAroundWordMatch(a, b, w, c, d, s);
    var m := Match(6 + n, [[a, b], w, [c, d]]);
    SubOneMatch(SpaceAroundAlnumRun, s, 0, m);
    ExpandTriple([a, b], w, [c, d]);
  }

  /** Spaces around an ASCII word inside CJK text are removed by the single three-group
      join: "测试 test 剧集" becomes "测试test剧集". */
  lemma SpacesAroundWordRemoved(a: char, b: char, w: string, c: char, d: char)
    requires IsCjk(a) && IsCjk(b) && IsCjk(c) && IsCjk(d) && IsAlnumWord(w)
    ensures CleanFilename([a, b] + " " + w + " " + [c, d]) == [a, b] + w + [c, d]
  {
    var s := [a, b] + " " + w + " " + [c, d];
    var s2 := [a, b] + w + [c, d];
    assert forall k :: 0 <= k < |s| ==> IsCjk(s[k]) || s[k] < '\U{80}';
    assert forall k :: 0 <= k < |s2| ==> (IsCjk(s2[k]) || IsAsciiAlnum(s2[k])) && !IsSpace(s2[k]);
    assert '-' !in s2;
    NoFullwidthInCjkOrAscii(s);
    MixedFirstPass(a, b, w, c, d, s);
    JoinAroundWord(a, b, w, c, d, s);
    SpaceFreeUnchanged(s2);
    DashFreeUnchanged(s2);
    Passes(s, s, s2, s2, s2, s2, s2);
  }

  /** A hyphen between two CJK characters, with any whitespace before it, becomes
      one space: "霸道-总裁" and "霸道 -总裁" both become "霸道 总裁". The ideographic
      space is left to the fold, which turns it into a plain space first. */
  lemma HyphenBetweenBecomesSpace(a: char, b: char, gap: string, c: char, d: char)
    requires IsCjk(a) && IsCjk(b) && IsCjk(c) && IsCjk(d)
    requires forall k :: 0 <= k < |gap| ==> IsSpace(gap[k])
    requires NoFullwidth(gap)
    ensures CleanFilename([a, b] + gap + "-" + [c, d]) == [a, b, ' ', c, d]
  {
    var s := [a, b] + gap + "-" + [c, d];
    var r := [a, b, ' ', c, d];
    assert forall k :: 0 <= k < |s| ==> !IsAsciiAlnum(s[k]);
    assert '-' !in r;
    NoFullwidthInCjkOrAscii([a, b]);
    NoFullwidthInCjkOrAscii("-" + [c, d]);
    NoFullwidthJoin([a, b], gap, "-" + [c, d]);
    assert s == [a, b] + gap + ("-" + [c, d]);
    HyphenGapFirstPass(a, b, gap, c, d);
    AlnumFreeUnchanged(s);
    HyphenBetweenCjk(a, b, gap, c, d);
    DashFreeUnchanged(r);
    Passes(s, s, s, s, s, r, r);
  }

  /** A trailing hyphen after a CJK character is deleted: "霸道-" becomes "霸道". */
  lemma TrailingHyphenDropped(a: char, b: char)
    requires IsCjk(a) && IsCjk(b)
    ensures CleanFilename([a, b, '-']) == [a, b]
  {
    var s := [a, b, '-'];
    assert forall k :: 0 <= k < |s| ==> (IsCjk(s[k]) || s[k] < '\U{80}') && !IsSpace(s[k]);
    NoFullwidthInCjkOrAscii(s);
    SpaceFreeUnchanged(s);
    HyphenAfterCjk(a, b);
    Passes(s, s, s, s, s, s, [a, b]);
  }

  /** Matches do not overlap, so at most one hyphen goes after each CJK character:
      "霸--" becomes "霸-". */
  lemma OneHyphenPerCjk(a: char)
    requires IsCjk(a)
    ensures CleanFilename([a, '-', '-']) == [a, '-']
  {
    var s := [a, '-', '-'];
    assert forall k :: 0 <= k < |s| ==> (IsCjk(s[k]) || s[k] < '\U{80}') && !IsSpace(s[k]);
    NoFullwidthInCjkOrAscii(s);
    SpaceFreeUnchanged(s);
    OnlyFirstHyphenDropped(a);
    Passes(s, s, s, s, s, s, [a, '-']);
  }

  /** `(CJK)\s+(CJK)` joins "中 文" into "中文". */
  lemma SpaceBetweenCjkRemoved(a: char, b: char)
    requires IsCjk(a) && IsCjk(b)
    ensures CleanFilename([a, ' ', b]) == [a, b]
  {
    var s := [a, ' ', b];
    var r := [a, b];
    assert forall k :: 0 <= k < |s| ==> IsCjk(s[k]) || s[k] < '\U{80}';
    assert forall k :: 0 <= k < |r| ==> !IsSpace(r[k]) && r[k] != '-';
    NoFullwidthInCjkOrAscii(s);
    JoinTwo(a, b);
    SpaceFreeUnchanged(r);
    DashFreeUnchanged(r);
    Passes(s, r, r, r, r, r, r);
  }

  lemma JoinTwo(a: char, b: char)
    requires IsCjk(a) && IsCjk(b)
    ensures Sub(SpaceBetweenCjk, [a, ' ', b]) == [a, b]
  {
    var s := [a, ' ', b];
    RunEndAt(s, 1, Space, 2);
    var m := Match(3, [[a], [b]]);
    assert MatchAt(SpaceBetweenCjk.pattern, s, 0) == Some(m);
    SubOneMatch(SpaceBetweenCjk, s, 0, m);
    ExpandPair([a], [b]);
  }
}
