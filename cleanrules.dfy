/** The pieces both title cleaners are assembled from: the full-width punctuation
    table folded in with `str.replace`, and the `re.sub` rules over CJK characters,
    whitespace, ASCII letters and digits, and hyphens. */
module CleanRules {
  import opened Outcomes
  import opened Text
  import opened ReSub

  /** The full-width to half-width table, in the dictionary's insertion order (the
      order the replacement loop visits it). An empty value deletes the character. */
  const FullwidthTable: seq<(char, string)> := [
    ('\U{FF0D}', "-"),   // full-width hyphen-minus
    ('\U{FF1A}', ":"),   // full-width colon
    ('\U{FF0C}', ","),   // full-width comma
    ('\U{FF0E}', "."),   // full-width full stop
    ('\U{FF01}', "!"),   // full-width exclamation mark
    ('\U{FF1F}', "?"),   // full-width question mark
    ('\U{FF08}', "("),   // full-width left parenthesis
    ('\U{FF09}', ")"),   // full-width right parenthesis
    ('\U{FF3B}', "["),   // full-width left square bracket
    ('\U{FF3D}', "]"),   // full-width right square bracket
    ('\U{3000}', " "),   // ideographic space
    ('\U{3001}', ""),    // ideographic comma, removed
    ('\U{3002}', "."),   // ideographic full stop
    ('\U{201C}', "\""),  // left double quotation mark
    ('\U{201D}', "\""),  // right double quotation mark
    ('\U{2018}', "'"),   // left single quotation mark
    ('\U{2019}', "'")    // right single quotation mark
  ]

  function Keys(table: seq<(char, string)>): set<char> {
    set e | e in table :: e.0
  }

  function ValueChars(table: seq<(char, string)>): set<char> {
    if table == [] then {} else Chars(table[0].1) + ValueChars(table[1..])
  }

  /** Every value is at most one character long. */
  predicate ShortValues(table: seq<(char, string)>) {
    forall k :: 0 <= k < |table| ==> |table[k].1| <= 1
  }

  /** `s.replace(key, value)` for one table entry. */
  function ReplaceEntry(e: (char, string)): (r: Rule)
    ensures WellFormed(r)
    ensures |e.1| <= 1 ==> Contracting(r)
    ensures TemplateChars(r.template) == Chars(e.1)
  {
    var r := Rule(Literal([e.0]), [Verbatim(e.1)]);
    assert r.template[1..] == [];
    assert Ascending(r.template[1..], 0);
    assert TextLength(r.template) == |e.1| + TextLength([]);
    assert TemplateChars(r.template) == Chars(e.1) + TemplateChars([]);
    r
  }

  /** The replacement loop: `for k, v in table.items(): s = s.replace(k, v)`. */
  function FoldTable(s: string, table: seq<(char, string)>): string
    decreases |table|
  {
    if table == [] then s else FoldTable(Sub(ReplaceEntry(table[0]), s), table[1..])
  }

  lemma {:induction false} FoldChars(s: string, table: seq<(char, string)>)
    ensures Chars(FoldTable(s, table)) <= Chars(s) + ValueChars(table)
    decreases |table|
  {
    if table != [] {
      var s1 := Sub(ReplaceEntry(table[0]), s);
      SubFromChars(ReplaceEntry(table[0]), s, 0);
      assert s[0..] == s;
      FoldChars(s1, table[1..]);
    }
  }

  lemma KeysTail(table: seq<(char, string)>)
    requires table != []
    ensures Keys(table) == {table[0].0} + Keys(table[1..])
  {
    assert forall e :: e in table <==> e == table[0] || e in table[1..];
  }

  /** When no value contains a key, folding removes every key from the string. */
  lemma {:induction false} FoldRemovesKeys(s: string, table: seq<(char, string)>)
    requires ValueChars(table) !! Keys(table)
    ensures Chars(FoldTable(s, table)) !! Keys(table)
    decreases |table|
  {
    if table != [] {
      var c := table[0].0;
      var s1 := Sub(ReplaceEntry(table[0]), s);
      KeysTail(table);
      ReplaceCharRemoves(c, table[0].1, s, 0);
      FoldRemovesKeys(s1, table[1..]);
      FoldChars(s1, table[1..]);
    }
  }

  /** With one-character keys and values of at most one character, folding never
      lengthens the string. */
  lemma {:induction false} FoldLength(s: string, table: seq<(char, string)>)
    requires ShortValues(table)
    ensures |FoldTable(s, table)| <= |s|
    decreases |table|
  {
    if table != [] {
      assert |table[0].1| <= 1;
      SubFromLength(ReplaceEntry(table[0]), s, 0);
      FoldLength(Sub(ReplaceEntry(table[0]), s), table[1..]);
    }
  }

  /** A string without any key passes through the fold unchanged. */
  lemma {:induction false} FoldUnchanged(s: string, table: seq<(char, string)>)
    ensures Chars(s) !! Keys(table) ==> FoldTable(s, table) == s
    decreases |table|
  {
    if table != [] && Chars(s) !! Keys(table) {
      KeysTail(table);
      var r := ReplaceEntry(table[0]);
      forall t | 0 <= t < |s| ensures MatchAt(r.pattern, s, t).None? {
        assert s[t] in Chars(s);
        assert s[t..t + 1][0] == s[t];
      }
      SubUnchanged(r, s);
      FoldUnchanged(s, table[1..]);
    }
  }

  lemma FullwidthTableFacts()
    ensures |FullwidthTable| == 17
    ensures ShortValues(FullwidthTable)
    ensures ValueChars(FullwidthTable) !! Keys(FullwidthTable)
    ensures ' ' !in Keys(FullwidthTable)
  {
    var t := FullwidthTable;
    assert forall k :: 0 <= k < |t| ==> t[k].0 >= '\U{2018}';
    AsciiValues(t);
    assert forall e :: e in t ==> e.0 >= '\U{2018}';
  }

  lemma {:induction false} AsciiValues(t: seq<(char, string)>)
    requires forall k, j :: 0 <= k < |t| && 0 <= j < |t[k].1| ==> t[k].1[j] < '\U{80}'
    ensures forall c :: c in ValueChars(t) ==> c < '\U{80}'
    decreases |t|
  {
    if t != [] {
      AsciiValues(t[1..]);
      assert forall j :: 0 <= j < |t[0].1| ==> t[0].1[j] < '\U{80}';
    }
  }

  // ------------------------------------------------------------ re.sub rules

  /** The rules of the `re.sub` passes: regular expressions whose replacements never
      outgrow what they consume. */
  type PassRule = r: Rule | !r.pattern.Literal? && Contracting(r) witness Rule(CjkDash, [Group(1)])

  /** `(CJK)\s+(CJK)` → `\1\2`: drop whitespace between two CJK characters. */
  const SpaceBetweenCjk: PassRule := Rule(CjkSpaceCjk, [Group(1), Group(2)])
  /** `(CJK)\s+([a-zA-Z0-9])` → `\1\2`. */
  const SpaceCjkAlnum: PassRule := Rule(CjkSpaceAlnum, [Group(1), Group(2)])
  /** `([a-zA-Z0-9])\s+(CJK)` → `\1\2`. */
  const SpaceAlnumCjk: PassRule := Rule(AlnumSpaceCjk, [Group(1), Group(2)])
  /** `(CJK+)\s+([a-zA-Z0-9]+)\s*(CJK+)` → `\1\2\3`. */
  const SpaceAroundAlnumRun: PassRule := Rule(CjkRunAlnumRunCjkRun, [Group(1), Group(2), Group(3)])
  /** `(CJK+)\s+([a-zA-Z0-9]+)` → `\1\2`. */
  const SpaceCjkRunAlnumRun: PassRule := Rule(CjkRunSpaceAlnumRun, [Group(1), Group(2)])
  /** `([a-zA-Z0-9]+)\s+(CJK+)` → `\1\2`. */
  const SpaceAlnumRunCjkRun: PassRule := Rule(AlnumRunSpaceCjkRun, [Group(1), Group(2)])
  /** `(CJK)\s*-(CJK)` → `\1 \2`: a hyphen between CJK characters becomes a space. */
  const DashBetweenCjk: PassRule := Rule(CjkDashCjk, [Group(1), Verbatim(" "), Group(2)])
  /** `(CJK)(-)` → `\1`: a hyphen right after a CJK character is deleted. */
  const DashAfterCjk: PassRule := Rule(CjkDash, [Group(1)])

  lemma RuleTemplateChars()
    ensures TemplateChars(SpaceBetweenCjk.template) == {}
    ensures TemplateChars(SpaceCjkAlnum.template) == {}
    ensures TemplateChars(SpaceAlnumCjk.template) == {}
    ensures TemplateChars(SpaceAroundAlnumRun.template) == {}
    ensures TemplateChars(SpaceCjkRunAlnumRun.template) == {}
    ensures TemplateChars(SpaceAlnumRunCjkRun.template) == {}
    ensures TemplateChars(DashBetweenCjk.template) == {' '}
    ensures TemplateChars(DashAfterCjk.template) == {}
  {
  }

  /** What the templates of the rules write for given groups. */
  lemma ExpandPair(a: string, b: string)
    ensures Expand([Group(1), Group(2)], [a, b]) == a + b
    ensures Expand([Group(1), Verbatim(" "), Group(2)], [a, b]) == a + " " + b
    ensures Expand([Group(1)], [a, b]) == a
  {
    var g := [a, b];
    var t := [Group(1), Group(2)];
    assert t[1..] == [Group(2)] && t[1..][1..] == [];
    assert Expand([Group(2)], g) == b + Expand([], g);
    assert Expand(t, g) == a + Expand([Group(2)], g);
    var u := [Group(1), Verbatim(" "), Group(2)];
    assert u[1..] == [Verbatim(" "), Group(2)] && u[1..][1..] == [Group(2)];
    assert Expand(u[1..], g) == " " + Expand([Group(2)], g);
    assert Expand(u, g) == a + Expand(u[1..], g);
    assert [Group(1)][1..] == [];
    assert Expand([Group(1)], g) == a + Expand([], g);
  }

  lemma ExpandTriple(a: string, b: string, c: string)
    ensures Expand([Group(1), Group(2), Group(3)], [a, b, c]) == a + b + c
  {
    var g := [a, b, c];
    var t := [Group(1), Group(2), Group(3)];
    assert t[1..] == [Group(2), Group(3)] && t[1..][1..] == [Group(3)] && t[1..][1..][1..] == [];
    assert Expand([Group(3)], g) == c + Expand([], g);
    assert Expand([Group(2), Group(3)], g) == b + Expand([Group(3)], g);
    assert Expand(t, g) == a + Expand([Group(2), Group(3)], g);
  }

  /** A subject without whitespace is left alone by every rule that removes whitespace. */
  lemma SpaceFreeUnchanged(s: string)
    requires forall k :: 0 <= k < |s| ==> !IsSpace(s[k])
    ensures Sub(SpaceBetweenCjk, s) == s
    ensures Sub(SpaceCjkAlnum, s) == s
    ensures Sub(SpaceAlnumCjk, s) == s
    ensures Sub(SpaceAroundAlnumRun, s) == s
    ensures Sub(SpaceCjkRunAlnumRun, s) == s
    ensures Sub(SpaceAlnumRunCjkRun, s) == s
  {
    forall r: PassRule, t | r.pattern != CjkDashCjk && r.pattern != CjkDash && 0 <= t < |s|
      ensures MatchAt(r.pattern, s, t).None?
    {
    }
    SubUnchanged(SpaceBetweenCjk, s);
    SubUnchanged(SpaceCjkAlnum, s);
    SubUnchanged(SpaceAlnumCjk, s);
    SubUnchanged(SpaceAroundAlnumRun, s);
    SubUnchanged(SpaceCjkRunAlnumRun, s);
    SubUnchanged(SpaceAlnumRunCjkRun, s);
  }

  /** A subject without ASCII letters or digits is left alone by the rules that join
      CJK to them. */
  lemma AlnumFreeUnchanged(s: string)
    requires forall k :: 0 <= k < |s| ==> !IsAsciiAlnum(s[k])
    ensures Sub(SpaceCjkAlnum, s) == s
    ensures Sub(SpaceAlnumCjk, s) == s
    ensures Sub(SpaceCjkRunAlnumRun, s) == s
    ensures Sub(SpaceAlnumRunCjkRun, s) == s
    ensures Sub(SpaceAroundAlnumRun, s) == s
  {
    forall t | 0 <= t < |s| ensures MatchAt(SpaceCjkAlnum.pattern, s, t).None? {
    }
    forall t | 0 <= t < |s| ensures MatchAt(SpaceAroundAlnumRun.pattern, s, t).None? {
    }
    forall t | 0 <= t < |s| ensures MatchAt(SpaceAlnumCjk.pattern, s, t).None? {
    }
    forall t | 0 <= t < |s| ensures MatchAt(SpaceCjkRunAlnumRun.pattern, s, t).None? {
    }
    forall t | 0 <= t < |s| ensures MatchAt(SpaceAlnumRunCjkRun.pattern, s, t).None? {
    }
    SubUnchanged(SpaceCjkAlnum, s);
    SubUnchanged(SpaceAlnumCjk, s);
    SubUnchanged(SpaceCjkRunAlnumRun, s);
    SubUnchanged(SpaceAlnumRunCjkRun, s);
    SubUnchanged(SpaceAroundAlnumRun, s);
  }

  /** A subject without a hyphen is left alone by both hyphen rules. */
  lemma DashFreeUnchanged(s: string)
    requires '-' !in s
    ensures Sub(DashBetweenCjk, s) == s
    ensures Sub(DashAfterCjk, s) == s
  {
    assert forall k :: 0 <= k < |s| ==> s[k] != '-';
    forall t | 0 <= t < |s| ensures MatchAt(DashBetweenCjk.pattern, s, t).None? {
    }
    forall t | 0 <= t < |s| ensures MatchAt(DashAfterCjk.pattern, s, t).None? {
    }
    SubUnchanged(DashBetweenCjk, s);
    SubUnchanged(DashAfterCjk, s);
  }

  /** A subject without CJK characters is left alone by every `re.sub` rule. */
  lemma NoCjkUnchanged(r: Rule, s: string)
    requires WellFormed(r) && !r.pattern.Literal?
    ensures NoCjk(s) ==> Sub(r, s) == s
  {
    if NoCjk(s) {
      forall t | 0 <= t < |s| ensures MatchAt(r.pattern, s, t).None? {
      }
      SubUnchanged(r, s);
    }
  }

  /** Nothing in `s` is a key of the full-width table. */
  predicate NoFullwidth(s: string) {
    Chars(s) !! Keys(FullwidthTable)
  }

  /** The fold over the table, with what it guarantees. */
  function FoldFullwidth(s: string): (r: string)
    ensures NoFullwidth(r)
    ensures Chars(r) <= Chars(s) + ValueChars(FullwidthTable)
    ensures |r| <= |s|
    ensures NoFullwidth(s) ==> r == s
  {
    FullwidthTableFacts();
    FoldRemovesKeys(s, FullwidthTable);
    FoldChars(s, FullwidthTable);
    FoldLength(s, FullwidthTable);
    FoldUnchanged(s, FullwidthTable);
    FoldTable(s, FullwidthTable)
  }

  /** One `re.sub` pass of a contracting rule, with what it guarantees. */
  function Pass(r: PassRule, s: string): (o: string)
    ensures |o| <= |s|
    ensures Chars(o) <= Chars(s) + TemplateChars(r.template)
    ensures NoFullwidth(s) && TemplateChars(r.template) <= {' '} ==> NoFullwidth(o)
    ensures NoCjk(s) ==> o == s
  {
    assert s[0..] == s;
    FullwidthTableFacts();
    SubFromChars(r, s, 0);
    SubFromLength(r, s, 0);
    NoCjkUnchanged(r, s);
    Sub(r, s)
  }

  // ------------------------------------------------- the rules at work

  /** Strings free of full-width keys stay free of them when joined. */
  lemma NoFullwidthJoin(x: string, gap: string, y: string)
    requires NoFullwidth(x) && NoFullwidth(gap) && NoFullwidth(y)
    ensures NoFullwidth(x + gap + y)
  {
    CharsConcat(x, gap);
    CharsConcat(x + gap, y);
  }

  /** Every character of `s` is CJK or ASCII, so none is in the full-width table. */
  lemma NoFullwidthInCjkOrAscii(s: string)
    requires forall k :: 0 <= k < |s| ==> IsCjk(s[k]) || s[k] < '\U{80}'
    ensures NoFullwidth(s)
  {
    var t := FullwidthTable;
    assert forall k :: 0 <= k < |t| ==> !IsCjk(t[k].0) && t[k].0 >= '\U{80}';
    assert forall e :: e in t ==> !IsCjk(e.0) && e.0 >= '\U{80}';
  }

  /** `(CJK)\s+(CJK)` finds nothing in "测试 test 剧集": the spaces touch the word. */
  lemma MixedFirstPass(a: char, b: char, w: string, c: char, d: char, s: string)
    requires IsCjk(a) && IsCjk(b) && IsCjk(c) && IsCjk(d) && IsAlnumWord(w)
    requires s == [a, b] + " " + w + " " + [c, d]
    ensures Sub(SpaceBetweenCjk, s) == s
  {
    var n := |w|;
    assert forall t :: 3 <= t < 3 + n ==> s[t] == w[t - 3];
    RunEndAt(s, 1, Space, 1);
    RunEndAt(s, 2, Space, 3);
    RunEndAt(s, 5 + n, Space, 5 + n);
    forall t | 0 <= t < |s| ensures MatchAt(SpaceBetweenCjk.pattern, s, t).None? {
    }
    SubUnchanged(SpaceBetweenCjk, s);
  }

  /** `(CJK)\s+(CJK)` finds nothing when whitespace is followed by a hyphen. */
  lemma HyphenGapFirstPass(a: char, b: char, gap: string, c: char, d: char)
    requires IsCjk(a) && IsCjk(b) && IsCjk(c) && IsCjk(d)
    requires forall k :: 0 <= k < |gap| ==> IsSpace(gap[k])
    ensures Sub(SpaceBetweenCjk, [a, b] + gap + "-" + [c, d]) == [a, b] + gap + "-" + [c, d]
  {
    var s := [a, b] + gap + "-" + [c, d];
    var n := |gap|;
    assert forall k :: 2 <= k < 2 + n ==> s[k] == gap[k - 2];
    RunEndAt(s, 1, Space, 1);
    RunEndAt(s, 2, Space, 2 + n);
    RunEndAt(s, 4 + n, Space, 4 + n);
    forall t | 0 <= t < |s| ensures MatchAt(SpaceBetweenCjk.pattern, s, t).None? {
    }
    SubUnchanged(SpaceBetweenCjk, s);
  }


  /** `(CJK)\s*-(CJK)` turns the hyphen, and any whitespace before it, into one space:
      "霸道-总裁" and "霸道 -总裁" both become "霸道 总裁". */
  lemma HyphenBetweenCjk(a: char, b: char, gap: string, c: char, d: char)
    requires IsCjk(a) && IsCjk(b) && IsCjk(c) && IsCjk(d)
    requires forall k :: 0 <= k < |gap| ==> IsSpace(gap[k])
    ensures Sub(DashBetweenCjk, [a, b] + gap + "-" + [c, d]) == [a, b, ' ', c, d]
  {
    var s := [a, b] + gap + "-" + [c, d];
    var n := |gap|;
    assert forall k :: 2 <= k < 2 + n ==> s[k] == gap[k - 2];
    RunEndAt(s, 1, Space, 1);
    RunEndAt(s, 2, Space, 2 + n);
    var m := Match(4 + n, [[b], [c]]);
    assert MatchAt(DashBetweenCjk.pattern, s, 1) == Some(m);
    forall t | 0 <= t < 1 || 4 + n <= t < |s| ensures MatchAt(DashBetweenCjk.pattern, s, t).None? {
    }
    SubOneMatch(DashBetweenCjk, s, 1, m);
    ExpandPair([b], [c]);
    assert s[..1] == [a] && s[4 + n..] == [d];
  }

  /** `(CJK)(-)` deletes a hyphen right after a CJK character: "霸道-" becomes "霸道". */
  lemma HyphenAfterCjk(a: char, b: char)
    requires IsCjk(a) && IsCjk(b)
    ensures Sub(DashBetweenCjk, [a, b, '-']) == [a, b, '-']
    ensures Sub(DashAfterCjk, [a, b, '-']) == [a, b]
  {
    var s := [a, b, '-'];
    RunEndAt(s, 1, Space, 1);
    RunEndAt(s, 2, Space, 2);
    forall t | 0 <= t < |s| ensures MatchAt(DashBetweenCjk.pattern, s, t).None? {
    }
    SubUnchanged(DashBetweenCjk, s);
    var m := Match(3, [[b], ['-']]);
    SubOneMatch(DashAfterCjk, s, 1, m);
    ExpandPair([b], ['-']);
  }

  /** Matches do not overlap, so of two hyphens after a CJK character only the first
      goes: "霸--" becomes "霸-". */
  lemma OnlyFirstHyphenDropped(a: char)
    requires IsCjk(a)
    ensures Sub(DashBetweenCjk, [a, '-', '-']) == [a, '-', '-']
    ensures Sub(DashAfterCjk, [a, '-', '-']) == [a, '-']
  {
    var s := [a, '-', '-'];
    RunEndAt(s, 1, Space, 1);
    forall t | 0 <= t < |s| ensures MatchAt(DashBetweenCjk.pattern, s, t).None? {
    }
    SubUnchanged(DashBetweenCjk, s);
    var m := Match(2, [[a], ['-']]);
    SubOneMatch(DashAfterCjk, s, 0, m);
    ExpandPair([a], ['-']);
  }
}
