/** The plugin's title cleaner: the full-width fold followed by five `re.sub`
    passes, modelled as the one-argument string function its body is. */
module TitleCleaner {
  import opened Outcomes
  import opened Text
  import opened ReSub
  import opened CleanRules

  /** The cleaned title: full-width punctuation folded, whitespace between CJK
      characters and between CJK and ASCII alphanumerics removed, a hyphen between
      CJK characters turned into a space, then a hyphen after a CJK character dropped. */
  function CleanFilename(filename: string): string {
    var folded := FoldFullwidth(filename);
    var s1 := Pass(SpaceBetweenCjk, folded);
    var s2 := Pass(SpaceCjkAlnum, s1);
    var s3 := Pass(SpaceAlnumCjk, s2);
    var s4 := Pass(DashBetweenCjk, s3);
    Pass(DashAfterCjk, s4)
  }

  /** No character of the full-width table survives cleaning. */
  lemma CleanRemovesFullwidth(filename: string)
    ensures NoFullwidth(CleanFilename(filename))
  {
    RuleTemplateChars();
    var folded := FoldFullwidth(filename);
    var s1 := Pass(SpaceBetweenCjk, folded);
    var s2 := Pass(SpaceCjkAlnum, s1);
    var s3 := Pass(SpaceAlnumCjk, s2);
    var s4 := Pass(DashBetweenCjk, s3);
    assert NoFullwidth(s1) && NoFullwidth(s2) && NoFullwidth(s3);
    assert NoFullwidth(s4);
  }

  /** Cleaning never lengthens a title. */
  lemma CleanNeverLonger(filename: string)
    ensures |CleanFilename(filename)| <= |filename|
  {
  }

  /** A title with no table character and no CJK character is returned unchanged. */
  lemma CleanKeepsPlainTitle(filename: string)
    requires NoFullwidth(filename) && NoCjk(filename)
    ensures CleanFilename(filename) == filename
  {
  }

  /** The five passes one by one, for the worked examples below. */
  lemma Passes(filename: string, folded: string, s1: string, s2: string, s3: string, s4: string, r: string)
    requires folded == FoldFullwidth(filename)
    requires s1 == Sub(SpaceBetweenCjk, folded)
    requires s2 == Sub(SpaceCjkAlnum, s1)
    requires s3 == Sub(SpaceAlnumCjk, s2)
    requires s4 == Sub(DashBetweenCjk, s3)
    requires r == Sub(DashAfterCjk, s4)
    ensures CleanFilename(filename) == r
  {
    RuleTemplateChars();
    assert Pass(SpaceBetweenCjk, folded) == s1;
    assert Pass(SpaceCjkAlnum, s1) == s2;
    assert Pass(SpaceAlnumCjk, s2) == s3;
    assert Pass(DashBetweenCjk, s3) == s4;
    assert Pass(DashAfterCjk, s4) == r;
  }

  lemma MixedSecondPass(a: char, b: char, w: string, c: char, d: char, s: string)
    requires IsCjk(a) && IsCjk(b) && IsCjk(c) && IsCjk(d) && IsAlnumWord(w)
    requires s == [a, b] + " " + w + " " + [c, d]
    ensures Sub(SpaceCjkAlnum, s) == [a, b] + w + " " + [c, d]
  {
    var n := |w|;
    assert s[..1] + ([b] + [w[0]]) + s[4..] == [a, b] + w + " " + [c, d];
    assert forall t :: 3 <= t < 3 + n ==> s[t] == w[t - 3];
    RunEndAt(s, 1, Space, 1);
    RunEndAt(s, 2, Space, 3);
    RunEndAt(s, 5 + n, Space, 5 + n);
    var m := Match(4, [[b], [w[0]]]);
    assert MatchAt(SpaceCjkAlnum.pattern, s, 1) == Some(m);
    forall t | 0 <= t < 1 || 4 <= t < |s| ensures MatchAt(SpaceCjkAlnum.pattern, s, t).None? {
    }
    SubOneMatch(SpaceCjkAlnum, s, 1, m);
    ExpandPair([b], [w[0]]);
  }

  /** In `[a, b] + w + " " + [c, d]` the rule `([a-zA-Z0-9])\s+(CJK)` matches at
      the last letter of `w` and nowhere else. */
  lemma MixedThirdPassMatches(a: char, b: char, w: string, c: char, d: char, s: string)
    requires IsCjk(a) && IsCjk(b) && IsCjk(c) && IsCjk(d) && IsAlnumWord(w)
    requires s == [a, b] + w + " " + [c, d]
    ensures MatchAt(SpaceAlnumCjk.pattern, s, 1 + |w|) == Some(Match(4 + |w|, [[w[|w| - 1]], [c]]))
    ensures forall t :: 0 <= t < 1 + |w| || 4 + |w| <= t < |s| ==> MatchAt(SpaceAlnumCjk.pattern, s, t).None?
  {
    var n := |w|;
    assert forall t :: 2 <= t < 2 + n ==> s[t] == w[t - 2];
    RunEndAt(s, 2 + n, Space, 3 + n);
    forall t | 3 <= t < 2 + n ensures RunEnd(s, t, Space) == t {
      RunEndAt(s, t, Space, t);
    }
  }

  lemma MixedThirdPass(a: char, b: char, w: string, c: char, d: char, s: string)
    requires IsCjk(a) && IsCjk(b) && IsCjk(c) && IsCjk(d) && IsAlnumWord(w)
    requires s == [a, b] + w + " " + [c, d]
    ensures Sub(SpaceAlnumCjk, s) == [a, b] + w + [c, d]
  {
    var n := |w|;
    assert s[..1 + n] + ([w[n - 1]] + [c]) + s[4 + n..] == [a, b] + w + [c, d] by {
      assert s[..1 + n] == [a, b] + w[..n - 1];
      assert s[4 + n..] == [d];
      assert w[..n - 1] + [w[n - 1]] == w;
    }
    MixedThirdPassMatches(a, b, w, c, d, s);
    var m := Match(4 + n, [[w[n - 1]], [c]]);
    SubOneMatch(SpaceAlnumCjk, s, 1 + n, m);
    ExpandPair([w[n - 1]], [c]);
  }

  /** Spaces around an ASCII word inside CJK text are removed: with `a`, `b`, `c`, `d`
      taken as 测, 试, 剧, 集 and `w` as `test`, "测试 test 剧集" becomes "测试test剧集". */
  lemma SpacesAroundWordRemoved(a: char, b: char, w: string, c: char, d: char)
    requires IsCjk(a) && IsCjk(b) && IsCjk(c) && IsCjk(d) && IsAlnumWord(w)
    ensures CleanFilename([a, b] + " " + w + " " + [c, d]) == [a, b] + w + [c, d]
  {
    var s := [a, b] + " " + w + " " + [c, d];
    var s2 := [a, b] + w + " " + [c, d];
    var s3 := [a, b] + w + [c, d];
    assert NoFullwidth(s) by {
      assert forall k :: 0 <= k < |s| ==> IsCjk(s[k]) || s[k] < '\U{80}';
      NoFullwidthInCjkOrAscii(s);
    }
    assert '-' !in s3 by {
      assert forall k :: 0 <= k < |s3| ==> IsCjk(s3[k]) || IsAsciiAlnum(s3[k]);
    }
    MixedFirstPass(a, b, w, c, d, s);
    MixedSecondPass(a, b, w, c, d, s);
    MixedThirdPass(a, b, w, c, d, s2);
    DashFreeUnchanged(s3);
    Passes(s, s, s, s2, s3, s3, s3);
  }

  /** A hyphen between two CJK characters, with any whitespace before it, becomes
      one space before the hyphen-deleting pass can see it: "霸道-总裁" and "霸道 -总裁"
      both become "霸道 总裁". The ideographic space is left to the fold, which turns
      it into a plain space first. */
  lemma HyphenBetweenBecomesSpace(a: char, b: char, gap: string, c: char, d: char)
    requires IsCjk(a) && IsCjk(b) && IsCjk(c) && IsCjk(d)
    requires forall k :: 0 <= k < |gap| ==> IsSpace(gap[k])
    requires NoFullwidth(gap)
    ensures CleanFilename([a, b] + gap + "-" + [c, d]) == [a, b, ' ', c, d]
  {
    var s := [a, b] + gap + "-" + [c, d];
    var r := [a, b, ' ', c, d];
    assert forall k :: 0 <= k < |s| ==> !IsAsciiAlnum(s[k]);
    assert '-' !in r;
    NoFullwidthInCjkOrAscii([a, b]);
    NoFullwidthInCjkOrAscii("-" + [c, d]);
    NoFullwidthJoin([a, b], gap, "-" + [c, d]);
    assert s == [a, b] + gap + ("-" + [c, d]);
    HyphenGapFirstPass(a, b, gap, c, d);
    AlnumFreeUnchanged(s);
    HyphenBetweenCjk(a, b, gap, c, d);
    DashFreeUnchanged(r);
    Passes(s, s, s, s, s, r, r);
  }

  /** A trailing hyphen after a CJK character is deleted: "霸道-" becomes "霸道". */
  lemma TrailingHyphenDropped(a: char, b: char)
    requires IsCjk(a) && IsCjk(b)
    ensures CleanFilename([a, b, '-']) == [a, b]
  {
    var s := [a, b, '-'];
    NoFullwidthInCjkOrAscii(s);
    SpaceFreeUnchanged(s);
    HyphenAfterCjk(a, b);
    Passes(s, s, s, s, s, s, [a, b]);
  }

  /** Each match consumes both CJK neighbours of a space, so in "中 文 字" only the
      first space goes; a second cleaning removes the other. The cleaner is not
      idempotent. */
  lemma NotIdempotent(a: char, b: char, c: char)
    requires IsCjk(a) && IsCjk(b) && IsCjk(c)
    ensures CleanFilename([a, ' ', b, ' ', c]) == [a, b, ' ', c]
    ensures CleanFilename([a, b, ' ', c]) == [a, b, c]
    ensures CleanFilename(CleanFilename([a, ' ', b, ' ', c])) != CleanFilename([a, ' ', b, ' ', c])
  {
    CleanJoinsFirstSpace(a, b, c);
    CleanJoinsSecondSpace(a, b, c);
    assert [a, b, c] != [a, b, ' ', c];
  }

  lemma CleanJoinsFirstSpace(a: char, b: char, c: char)
    requires IsCjk(a) && IsCjk(b) && IsCjk(c)
    ensures CleanFilename([a, ' ', b, ' ', c]) == [a, b, ' ', c]
  {
    var s := [a, ' ', b, ' ', c];
    var s1 := [a, b, ' ', c];
    assert forall k :: 0 <= k < |s| ==> IsCjk(s[k]) || s[k] < '\U{80}';
    assert forall k :: 0 <= k < |s1| ==> !IsAsciiAlnum(s1[k]) && s1[k] != '-';
    FirstSpaceJoined(a, b, c);
    NoFullwidthInCjkOrAscii(s);
    AlnumFreeUnchanged(s1);
    DashFreeUnchanged(s1);
    Passes(s, s, s1, s1, s1, s1, s1);
  }

  lemma CleanJoinsSecondSpace(a: char, b: char, c: char)
    requires IsCjk(a) && IsCjk(b) && IsCjk(c)
    ensures CleanFilename([a, b, ' ', c]) == [a, b, c]
  {
    var s1 := [a, b, ' ', c];
    var s2 := [a, b, c];
    assert forall k :: 0 <= k < |s1| ==> IsCjk(s1[k]) || s1[k] < '\U{80}';
    assert forall k :: 0 <= k < |s2| ==> !IsAsciiAlnum(s2[k]) && s2[k] != '-';
    SecondSpaceJoined(a, b, c);
    NoFullwidthInCjkOrAscii(s1);
    AlnumFreeUnchanged(s2);
    DashFreeUnchanged(s2);
    Passes(s1, s1, s2, s2, s2, s2, s2);
  }

  lemma FirstSpaceJoined(a: char, b: char, c: char)
    requires IsCjk(a) && IsCjk(b) && IsCjk(c)
    ensures Sub(SpaceBetweenCjk, [a, ' ', b, ' ', c]) == [a, b, ' ', c]
  {
    var s := [a, ' ', b, ' ', c];
    RunEndAt(s, 1, Space, 2);
    RunEndAt(s, 4, Space, 4);
    var m := Match(3, [[a], [b]]);
    assert MatchAt(SpaceBetweenCjk.pattern, s, 0) == Some(m);
    forall t | 3 <= t < |s| ensures MatchAt(SpaceBetweenCjk.pattern, s, t).None? {
    }
    SubOneMatch(SpaceBetweenCjk, s, 0, m);
    ExpandPair([a], [b]);
  }

  lemma SecondSpaceJoined(a: char, b: char, c: char)
    requires IsCjk(a) && IsCjk(b) && IsCjk(c)
    ensures Sub(SpaceBetweenCjk, [a, b, ' ', c]) == [a, b, c]
  {
    var s := [a, b, ' ', c];
    RunEndAt(s, 1, Space, 1);
    RunEndAt(s, 2, Space, 3);
    var m := Match(4, [[b], [c]]);
    assert MatchAt(SpaceBetweenCjk.pattern, s, 1) == Some(m);
    forall t | 0 <= t < 1 ensures MatchAt(SpaceBetweenCjk.pattern, s, t).None? {
    }
    SubOneMatch(SpaceBetweenCjk, s, 1, m);
    ExpandPair([b], [c]);
  }
}
