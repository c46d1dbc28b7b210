/** The string rewriting both title cleaners are built from: Python's `str.replace`
    with a non-empty needle, and `re.sub` over the eight fixed patterns the cleaners
    use. Both scan the subject left to right: at each position they try a match; a
    match is replaced and scanning resumes after the consumed text (so matches never
    overlap); otherwise the character is kept and scanning moves on by one. */
module ReSub {
  import opened Text
  import opened Outcomes

  type Needle = s: string | |s| > 0 witness "?"

  /** The patterns given to `str.replace` and `re.sub` in the source. CJK is the
      range U+4E00..U+9FFF, `\s` is `IsSpace`, alnum is `[a-zA-Z0-9]`. */
  datatype Pattern =
    | Literal(needle: Needle)   // str.replace(needle, ...)
    | CjkSpaceCjk               // ([CJK])\s+([CJK])
    | CjkSpaceAlnum             // ([CJK])\s+([a-zA-Z0-9])
    | AlnumSpaceCjk             // ([a-zA-Z0-9])\s+([CJK])
    | CjkDashCjk                // ([CJK])\s*-([CJK])
    | CjkDash                   // ([CJK])(-)
    | CjkRunAlnumRunCjkRun      // ([CJK]+)\s+([a-zA-Z0-9]+)\s*([CJK]+)
    | CjkRunSpaceAlnumRun       // ([CJK]+)\s+([a-zA-Z0-9]+)
    | AlnumRunSpaceCjkRun       // ([a-zA-Z0-9]+)\s+([CJK]+)

  /** A replacement template: literal text and `\k` group references (1-based). */
  datatype Piece = Verbatim(text: string) | Group(index: nat)
  type Template = seq<Piece>

  /** One `re.sub(pattern, template, ...)` or `replace(needle, text)` call. */
  datatype Rule = Rule(pattern: Pattern, template: Template)

  /** A successful match: where it ends (exclusive) and the captured groups. */
  datatype Match = Match(end: nat, groups: seq<string>)

  datatype Class = Cjk | Space | Alnum

  predicate InClass(c: char, k: Class) {
    match k
    case Cjk => IsCjk(c)
    case Space => IsSpace(c)
    case Alnum => IsAsciiAlnum(c)
  }

  function GroupCount(p: Pattern): nat {
    match p
    case Literal(_) => 0
    case CjkRunAlnumRunCjkRun => 3
    case _ => 2
  }

  /** How many consumed characters a match of `p` surely leaves out of its groups. */
  function Gap(p: Pattern): nat {
    match p
    case Literal(n) => |n|
    case CjkDash => 0
    case _ => 1
  }

  function TotalLength(groups: seq<string>): nat {
    if groups == [] then 0 else |groups[0]| + TotalLength(groups[1..])
  }

  function CharsOfAll(groups: seq<string>): set<char> {
    if groups == [] then {} else Chars(groups[0]) + CharsOfAll(groups[1..])
  }

  /** The end of the longest run of class `k` starting at `i`. */
  function RunEnd(s: string, i: nat, k: Class): (j: nat)
    requires i <= |s|
    ensures i <= j <= |s|
    ensures forall t :: i <= t < j ==> InClass(s[t], k)
    ensures j == |s| || !InClass(s[j], k)
    decreases |s| - i
  {
    if i == |s| || !InClass(s[i], k) then i else RunEnd(s, i + 1, k)
  }

  /** A run of class `k` that stops at `j` ends at `j`. */
  lemma {:induction false} RunEndAt(s: string, i: nat, k: Class, j: nat)
    requires i <= j <= |s|
    requires forall t :: i <= t < j ==> InClass(s[t], k)
    requires j == |s| || !InClass(s[j], k)
    ensures RunEnd(s, i, k) == j
    decreases j - i
  {
    if i < j {
      RunEndAt(s, i + 1, k, j);
    }
  }

  /** What every matcher promises of a match at `i`: it consumes at least one
      character, has `count` groups, captures only consumed characters, and leaves
      at least `gap` consumed characters outside its groups. */
  ghost predicate GoodMatch(s: string, i: nat, m: Match, count: nat, gap: nat) {
    && i < m.end <= |s|
    && |m.groups| == count
    && CharsOfAll(m.groups) <= Chars(s[i..m.end])
    && TotalLength(m.groups) + gap <= m.end - i
  }

  /** `(X)\s+(Y)` at `i`. Greedy `\s+` is the only candidate: X, Y and `\s` are
      disjoint, so a shorter run would leave a space where Y is needed. */
  function MatchPairAcrossSpace(s: string, i: nat, x: Class, y: Class): (m: Option<Match>)
    requires i <= |s|
    ensures m.Some? ==> GoodMatch(s, i, m.value, 2, 1)
    ensures m.Some? ==> InClass(s[i], x) && InClass(s[m.value.end - 1], y)
    ensures m.Some? ==> m.value.groups == [[s[i]], [s[m.value.end - 1]]]
    ensures m.Some? ==> forall t :: i < t < m.value.end - 1 ==> IsSpace(s[t])
    ensures m.Some? ==> i + 3 <= m.value.end && IsSpace(s[i + 1])
  {
    if i < |s| && InClass(s[i], x) then
      var j := RunEnd(s, i + 1, Space);
      if j > i + 1 && j < |s| && InClass(s[j], y) then
        PairFacts(s, i, j + 1);
        Some(Match(j + 1, [[s[i]], [s[j]]]))
      else None
    else None
  }

  /** `([CJK])\s*-([CJK])` at `i`. */
  function MatchDashBetween(s: string, i: nat): (m: Option<Match>)
    requires i <= |s|
    ensures m.Some? ==> GoodMatch(s, i, m.value, 2, 1)
    ensures m.Some? ==> i + 3 <= m.value.end
    ensures m.Some? ==> IsCjk(s[i]) && IsCjk(s[m.value.end - 1]) && s[m.value.end - 2] == '-'
    ensures m.Some? ==> m.value.groups == [[s[i]], [s[m.value.end - 1]]]
    ensures m.Some? ==> forall t :: i < t < m.value.end - 2 ==> IsSpace(s[t])
  {
    if i < |s| && IsCjk(s[i]) then
      var j := RunEnd(s, i + 1, Space);
      if j + 1 < |s| && s[j] == '-' && IsCjk(s[j + 1]) then
        PairFacts(s, i, j + 2);
        Some(Match(j + 2, [[s[i]], [s[j + 1]]]))
      else None
    else None
  }

  /** `([CJK])(-)` at `i`. */
  function MatchDashAfter(s: string, i: nat): (m: Option<Match>)
    requires i <= |s|
    ensures m.Some? <==> i + 1 < |s| && IsCjk(s[i]) && s[i + 1] == '-'
    ensures m.Some? ==> GoodMatch(s, i, m.value, 2, 0)
    ensures m.Some? ==> m.value == Match(i + 2, [[s[i]], ['-']])
  {
    if i + 1 < |s| && IsCjk(s[i]) && s[i + 1] == '-' then
      PairFacts(s, i, i + 2);
      Some(Match(i + 2, [[s[i]], [s[i + 1]]]))
    else None
  }

  /** `(X+)\s+(Y+)` at `i`: every run greedy; X, Y and `\s` are disjoint, so no
      backtracking can find another match. */
  function MatchRunsAcrossSpace(s: string, i: nat, x: Class, y: Class): (m: Option<Match>)
    requires i <= |s|
    ensures m.Some? ==> GoodMatch(s, i, m.value, 2, 1)
    ensures m.Some? ==> InClass(s[i], x) && InClass(s[m.value.end - 1], y)
    ensures m.Some? ==> RunEnd(s, i, x) < m.value.end && IsSpace(s[RunEnd(s, i, x)])
  {
    if i < |s| && InClass(s[i], x) then
      var a := RunEnd(s, i, x);
      var b := RunEnd(s, a, Space);
      if b > a then
        var c := RunEnd(s, b, y);
        if c > b then
          RunsFacts(s, i, a, b, c);
          Some(Match(c, [s[i..a], s[b..c]]))
        else None
      else None
    else None
  }

  /** `([CJK]+)\s+([a-zA-Z0-9]+)\s*([CJK]+)` at `i`, every run greedy. */
  function MatchCjkAlnumCjk(s: string, i: nat): (m: Option<Match>)
    requires i <= |s|
    ensures m.Some? ==> GoodMatch(s, i, m.value, 3, 1)
    ensures m.Some? ==> IsCjk(s[i])
    ensures m.Some? ==> RunEnd(s, i, Cjk) < m.value.end && IsSpace(s[RunEnd(s, i, Cjk)])
    ensures m.Some? ==> RunEnd(s, RunEnd(s, i, Cjk), Space) < m.value.end
    ensures m.Some? ==> IsAsciiAlnum(s[RunEnd(s, RunEnd(s, i, Cjk), Space)])
  {
    if i < |s| && IsCjk(s[i]) then
      var a := RunEnd(s, i, Cjk);
      var b := RunEnd(s, a, Space);
      if b > a then
        var c := RunEnd(s, b, Alnum);
        if c > b then
          var d := RunEnd(s, c, Space);
          var e := RunEnd(s, d, Cjk);
          if e > d then
            TripleFacts(s, i, a, b, c, d, e);
              Some(Match(e, [s[i..a], s[b..c], s[d..e]]))
          else None
        else None
      else None
    else None
  }

  /** The match Python finds for `p` when it tries position `i`, if any. */
  function MatchAt(p: Pattern, s: string, i: nat): (m: Option<Match>)
    requires i <= |s|
    ensures m.Some? ==> GoodMatch(s, i, m.value, GroupCount(p), Gap(p))
    ensures p.Literal? ==> (m.Some? <==> StartsAt(s, p.needle, i))
    ensures p.Literal? && m.Some? ==> m.value == Match(i + |p.needle|, [])
    ensures !p.Literal? && m.Some? ==> IsCjk(s[i]) || IsCjk(s[m.value.end - 1])
  {
    match p
    case Literal(n) =>
      if StartsAt(s, n, i) then
        assert Chars(s[i..i]) == {};
        Some(Match(i + |n|, []))
      else None
    case CjkSpaceCjk => MatchPairAcrossSpace(s, i, Cjk, Cjk)
    case CjkSpaceAlnum => MatchPairAcrossSpace(s, i, Cjk, Alnum)
    case AlnumSpaceCjk => MatchPairAcrossSpace(s, i, Alnum, Cjk)
    case CjkDashCjk => MatchDashBetween(s, i)
    case CjkDash => MatchDashAfter(s, i)
    case CjkRunAlnumRunCjkRun => MatchCjkAlnumCjk(s, i)
    case CjkRunSpaceAlnumRun => MatchRunsAcrossSpace(s, i, Cjk, Alnum)
    case AlnumRunSpaceCjkRun => MatchRunsAcrossSpace(s, i, Alnum, Cjk)
  }

  /** `(X)\s+(Y)` occurring at `i`, with its whitespace ending at `j`, is found with
      the greedy end: the pattern matches wherever it occurs. */
  lemma PairMatch(s: string, i: nat, j: nat, x: Class, y: Class)
    requires x != Space && y != Space
    requires i + 1 < j < |s|
    requires InClass(s[i], x) && InClass(s[j], y)
    requires forall t :: i < t < j ==> IsSpace(s[t])
    ensures MatchPairAcrossSpace(s, i, x, y) == Some(Match(j + 1, [[s[i]], [s[j]]]))
  {
    RunEndAt(s, i + 1, Space, j);
  }

  /** `([CJK])\s*-([CJK])` occurring at `i`, with its hyphen at `j`, is found. */
  lemma DashBetweenMatch(s: string, i: nat, j: nat)
    requires i < j && j + 1 < |s|
    requires IsCjk(s[i]) && s[j] == '-' && IsCjk(s[j + 1])
    requires forall t :: i < t < j ==> IsSpace(s[t])
    ensures MatchDashBetween(s, i) == Some(Match(j + 2, [[s[i]], [s[j + 1]]]))
  {
    RunEndAt(s, i + 1, Space, j);
  }

  /** `(X+)\s+(Y+)` occurring at `i` with maximal runs `[i, a)`, `[a, b)` and `[b, c)`
      is found with exactly those runs as groups. */
  lemma RunsMatch(s: string, i: nat, a: nat, b: nat, c: nat, x: Class, y: Class)
    requires x != Space && y != Space
    requires i < a < b < c <= |s|
    requires forall t :: i <= t < a ==> InClass(s[t], x)
    requires forall t :: a <= t < b ==> IsSpace(s[t])
    requires forall t :: b <= t < c ==> InClass(s[t], y)
    requires c == |s| || !InClass(s[c], y)
    ensures MatchRunsAcrossSpace(s, i, x, y) == Some(Match(c, [s[i..a], s[b..c]]))
  {
    assert !InClass(s[a], x) && !IsSpace(s[b]);
    RunEndAt(s, i, x, a);
    RunEndAt(s, a, Space, b);
    RunEndAt(s, b, y, c);
  }

  /** The runs that `(CJK+)\s+([a-zA-Z0-9]+)\s*(CJK+)` needs, found at `i`, give its match. */
  lemma {:induction false} TripleMatch(s: string, i: nat, a: nat, b: nat, c: nat, d: nat, e: nat)
    requires i < a < b < c <= d < e <= |s|
    requires forall t :: i <= t < a ==> IsCjk(s[t])
    requires forall t :: a <= t < b ==> IsSpace(s[t])
    requires forall t :: b <= t < c ==> IsAsciiAlnum(s[t])
    requires forall t :: c <= t < d ==> IsSpace(s[t])
    requires forall t :: d <= t < e ==> IsCjk(s[t])
    requires !IsCjk(s[a]) && !IsSpace(s[b]) && !IsAsciiAlnum(s[c]) && !IsSpace(s[d])
    requires e == |s| || !IsCjk(s[e])
    ensures MatchAt(CjkRunAlnumRunCjkRun, s, i) == Some(Match(e, [s[i..a], s[b..c], s[d..e]]))
  {
    RunEndAt(s, i, Cjk, a);
    RunEndAt(s, a, Space, b);
    RunEndAt(s, b, Alnum, c);
    RunEndAt(s, c, Space, d);
    RunEndAt(s, d, Cjk, e);
  }

  lemma PairFacts(s: string, i: nat, e: nat)
    requires i + 2 <= e <= |s|
    ensures CharsOfAll([[s[i]], [s[e - 1]]]) <= Chars(s[i..e])
    ensures TotalLength([[s[i]], [s[e - 1]]]) == 2
  {
    assert s[i..i + 1] == [s[i]] && s[e - 1..e] == [s[e - 1]];
    CharsWithin(s, i, i, i + 1, e);
    CharsWithin(s, i, e - 1, e, e);
    PairSums([s[i]], [s[e - 1]]);
  }

  lemma PairSums(x: string, y: string)
    ensures CharsOfAll([x, y]) == Chars(x) + Chars(y)
    ensures TotalLength([x, y]) == |x| + |y|
  {
    assert [x, y][1..] == [y];
    assert [y][1..] == [];
    assert CharsOfAll([y]) == Chars(y) + CharsOfAll([]);
    assert CharsOfAll([x, y]) == Chars(x) + CharsOfAll([y]);
    assert TotalLength([y]) == |y| + TotalLength([]);
    assert TotalLength([x, y]) == |x| + TotalLength([y]);
  }

  lemma RunsFacts(s: string, i: nat, a: nat, b: nat, e: nat)
    requires i < a < b < e <= |s|
    ensures CharsOfAll([s[i..a], s[b..e]]) <= Chars(s[i..e])
    ensures TotalLength([s[i..a], s[b..e]]) + 1 <= e - i
  {
    CharsWithin(s, i, i, a, e);
    CharsWithin(s, i, b, e, e);
    PairSums(s[i..a], s[b..e]);
  }

  lemma TripleFacts(s: string, i: nat, a: nat, b: nat, c: nat, d: nat, e: nat)
    requires i < a < b < c <= d < e <= |s|
    ensures CharsOfAll([s[i..a], s[b..c], s[d..e]]) <= Chars(s[i..e])
    ensures TotalLength([s[i..a], s[b..c], s[d..e]]) + 1 <= e - i
  {
    CharsWithin(s, i, i, a, e);
    CharsWithin(s, i, b, c, e);
    CharsWithin(s, i, d, e, e);
    var g := [s[i..a], s[b..c], s[d..e]];
    assert g[1..] == [s[b..c], s[d..e]];
    PairSums(s[b..c], s[d..e]);
  }

  // ---------------------------------------------------------------- templates

  predicate RefsWithin(t: Template, n: nat) {
    forall k :: 0 <= k < |t| && t[k].Group? ==> 1 <= t[k].index <= n
  }

  /** Group references appear at most once and in increasing order, all above `lo`. */
  predicate Ascending(t: Template, lo: nat) {
    if t == [] then true
    else match t[0]
      case Verbatim(_) => Ascending(t[1..], lo)
      case Group(k) => lo < k && Ascending(t[1..], k)
  }

  function TextLength(t: Template): nat {
    if t == [] then 0 else (if t[0].Verbatim? then |t[0].text| else 0) + TextLength(t[1..])
  }

  function TemplateChars(t: Template): set<char> {
    if t == [] then {} else (if t[0].Verbatim? then Chars(t[0].text) else {}) + TemplateChars(t[1..])
  }

  /** The replacement text for one match. */
  function Expand(t: Template, groups: seq<string>): string
    requires RefsWithin(t, |groups|)
  {
    if t == [] then []
    else
      (match t[0] case Verbatim(x) => x case Group(k) => groups[k - 1])
      + Expand(t[1..], groups)
  }

  /** What Python's `re` demands of a template (every `\k` names a group) plus the
      shape every template in the source has (each group used at most once). */
  predicate WellFormed(r: Rule) {
    RefsWithin(r.template, GroupCount(r.pattern)) && Ascending(r.template, 0)
  }

  /** The replacement never outgrows what its match consumed. */
  predicate Contracting(r: Rule) {
    WellFormed(r) && TextLength(r.template) <= Gap(r.pattern)
  }

  lemma {:induction false} TotalLengthSplit(g: seq<string>, lo: nat, j: nat)
    requires lo <= j < |g|
    ensures |g[j]| + TotalLength(g[j + 1..]) <= TotalLength(g[lo..])
    decreases j - lo
  {
    assert g[lo..][1..] == g[lo + 1..];
    if j > lo {
      TotalLengthSplit(g, lo + 1, j);
    }
  }

  lemma RefsWithinTail(t: Template, n: nat)
    requires t != [] && RefsWithin(t, n)
    ensures RefsWithin(t[1..], n)
  {
    forall k | 0 <= k < |t[1..]| && t[1..][k].Group? ensures 1 <= t[1..][k].index <= n {
      assert t[1..][k] == t[k + 1];
    }
  }

  lemma {:induction false} ExpandLength(t: Template, g: seq<string>, lo: nat)
    requires RefsWithin(t, |g|) && Ascending(t, lo) && lo <= |g|
    ensures |Expand(t, g)| <= TextLength(t) + TotalLength(g[lo..])
    decreases |t|
  {
    if t != [] {
      RefsWithinTail(t, |g|);
      var rest := Expand(t[1..], g);
      if t[0].Verbatim? {
        assert Ascending(t[1..], lo);
        ExpandLength(t[1..], g, lo);
        assert Expand(t, g) == t[0].text + rest;
        assert TextLength(t) == |t[0].text| + TextLength(t[1..]);
      } else {
        var k := t[0].index;
        assert 0 < |t| && t[0].Group?;
        assert lo < k <= |g| && Ascending(t[1..], k);
        ExpandLength(t[1..], g, k);
        TotalLengthSplit(g, lo, k - 1);
        assert Expand(t, g) == g[k - 1] + rest;
        assert TextLength(t) == TextLength(t[1..]);
      }
    }
  }

  lemma {:induction false} GroupCharsInAll(g: seq<string>, j: nat)
    requires j < |g|
    ensures Chars(g[j]) <= CharsOfAll(g)
    decreases j
  {
    if j > 0 {
      GroupCharsInAll(g[1..], j - 1);
      assert g[1..][j - 1] == g[j];
    }
  }

  lemma {:induction false} ExpandChars(t: Template, g: seq<string>)
    requires RefsWithin(t, |g|)
    ensures Chars(Expand(t, g)) <= TemplateChars(t) + CharsOfAll(g)
    decreases |t|
  {
    if t != [] {
      RefsWithinTail(t, |g|);
      ExpandChars(t[1..], g);
      var head := match t[0] case Verbatim(x) => x case Group(k) => g[k - 1];
      CharsConcat(head, Expand(t[1..], g));
      if t[0].Group? {
        assert t[0] == t[0 as nat];
        GroupCharsInAll(g, t[0].index - 1);
      }
    }
  }

  // ---------------------------------------------------------------- the scan

  /** The rewritten suffix of `s` from position `i` on. */
  function SubFrom(r: Rule, s: string, i: nat): string
    requires WellFormed(r) && i <= |s|
    decreases |s| - i
  {
    if i == |s| then []
    else match MatchAt(r.pattern, s, i)
      case None => [s[i]] + SubFrom(r, s, i + 1)
      case Some(m) => Expand(r.template, m.groups) + SubFrom(r, s, m.end)
  }

  /** `re.sub(pattern, template, s)` / `s.replace(needle, text)`. */
  function Sub(r: Rule, s: string): string
    requires WellFormed(r)
  {
    SubFrom(r, s, 0)
  }

  /** Every output character comes from the subject or from the template's text. */
  lemma {:induction false} SubFromChars(r: Rule, s: string, i: nat)
    requires WellFormed(r) && i <= |s|
    ensures Chars(SubFrom(r, s, i)) <= Chars(s[i..]) + TemplateChars(r.template)
    decreases |s| - i
  {
    if i < |s| {
      match MatchAt(r.pattern, s, i)
      case None =>
        SubFromChars(r, s, i + 1);
        CharsConcat([s[i]], SubFrom(r, s, i + 1));
        CharsWithin(s, i, i + 1, |s|, |s|);
        assert s[i] in s[i..];
      case Some(m) =>
        SubFromChars(r, s, m.end);
        CharsConcat(Expand(r.template, m.groups), SubFrom(r, s, m.end));
        ExpandChars(r.template, m.groups);
        CharsWithin(s, i, i, m.end, |s|);
        CharsWithin(s, i, m.end, |s|, |s|);
    }
  }

  /** A contracting rule's replacement fits in the text its match consumed, so one
      rewriting step keeps the output within the input. */
  lemma ExpansionFits(r: Rule, s: string, i: nat, m: Match)
    requires Contracting(r) && i < |s|
    requires MatchAt(r.pattern, s, i) == Some(m)
    requires |SubFrom(r, s, m.end)| <= |s| - m.end
    ensures |SubFrom(r, s, i)| <= |s| - i
  {
    SubFromRewrites(r, s, i, m);
    ExpandLength(r.template, m.groups, 0);
    assert m.groups[0..] == m.groups;
  }

  /** Copying one unmatched character keeps the output within the input. */
  lemma CopyFits(r: Rule, s: string, i: nat)
    requires WellFormed(r) && i < |s|
    requires MatchAt(r.pattern, s, i).None?
    requires |SubFrom(r, s, i + 1)| <= |s| - i - 1
    ensures |SubFrom(r, s, i)| <= |s| - i
  {
    SubFromCopies(r, s, i);
  }

  /** A contracting rule never lengthens the subject. */
  lemma {:induction false} SubFromLength(r: Rule, s: string, i: nat)
    requires Contracting(r) && i <= |s|
    ensures |SubFrom(r, s, i)| <= |s| - i
    decreases |s| - i
  {
    if i < |s| {
      SubFromLength(r, s, NextStart(r.pattern, s, i));
      StepFits(r, s, i);
    } else {
      SubFromEnd(r, s);
    }
  }

  /** Where the scan resumes after position `i`. */
  function NextStart(p: Pattern, s: string, i: nat): (n: nat)
    requires i < |s|
    ensures i < n <= |s|
  {
    match MatchAt(p, s, i)
    case None => i + 1
    case Some(m) => m.end
  }

  /** One step of the scan, copy or rewrite, keeps the output within the input. */
  lemma StepFits(r: Rule, s: string, i: nat)
    requires Contracting(r) && i < |s|
    requires |SubFrom(r, s, NextStart(r.pattern, s, i))| <= |s| - NextStart(r.pattern, s, i)
    ensures |SubFrom(r, s, i)| <= |s| - i
  {
    var found := MatchAt(r.pattern, s, i);
    if found.None? {
      CopyFits(r, s, i);
    } else {
      ExpansionFits(r, s, i, found.value);
    }
  }

  /** At the end of the subject the scan emits nothing more. */
  lemma SubFromEnd(r: Rule, s: string)
    requires WellFormed(r)
    ensures SubFrom(r, s, |s|) == []
  {
  }

  /** Where no match starts, the scan copies one character and moves on. */
  lemma SubFromCopies(r: Rule, s: string, i: nat)
    requires WellFormed(r) && i < |s|
    requires MatchAt(r.pattern, s, i).None?
    ensures SubFrom(r, s, i) == [s[i]] + SubFrom(r, s, i + 1)
  {
  }

  /** Where a match starts, the scan writes its expansion and resumes after it. */
  lemma SubFromRewrites(r: Rule, s: string, i: nat, m: Match)
    requires WellFormed(r) && i < |s|
    requires MatchAt(r.pattern, s, i) == Some(m)
    ensures m.end <= |s| && RefsWithin(r.template, |m.groups|)
    ensures SubFrom(r, s, i) == Expand(r.template, m.groups) + SubFrom(r, s, m.end)
  {
  }

  /** A stretch without match starts is copied through unchanged. */
  lemma {:induction false} SubFromSkips(r: Rule, s: string, i: nat, j: nat)
    requires WellFormed(r) && i <= j <= |s|
    requires forall t :: i <= t < j ==> MatchAt(r.pattern, s, t).None?
    ensures SubFrom(r, s, i) == s[i..j] + SubFrom(r, s, j)
    decreases j - i
  {
    if i < j {
      SubFromCopies(r, s, i);
      SubFromSkips(r, s, i + 1, j);
      PrependSlice(s, i, j, SubFrom(r, s, j));
    } else {
      assert s[i..j] == [];
    }
  }

  /** A subject in which the pattern matches nowhere comes back unchanged. */
  lemma SubUnchanged(r: Rule, s: string)
    requires WellFormed(r)
    requires forall t :: 0 <= t < |s| ==> MatchAt(r.pattern, s, t).None?
    ensures Sub(r, s) == s
  {
    SubFromSkips(r, s, 0, |s|);
    assert s[0..|s|] == s;
  }

  /** A subject with exactly one match, at `i`, has just that stretch rewritten. */
  lemma SubOneMatch(r: Rule, s: string, i: nat, m: Match)
    requires WellFormed(r) && i <= |s|
    requires forall t :: 0 <= t < i ==> MatchAt(r.pattern, s, t).None?
    requires MatchAt(r.pattern, s, i) == Some(m)
    requires forall t :: m.end <= t < |s| ==> MatchAt(r.pattern, s, t).None?
    ensures Sub(r, s) == s[..i] + Expand(r.template, m.groups) + s[m.end..]
  {
    assert i < m.end <= |s|;
    SubFromSkips(r, s, 0, i);
    SubFromRewrites(r, s, i, m);
    SubFromSkips(r, s, m.end, |s|);
    SubFromEnd(r, s);
    assert s[0..i] == s[..i] && s[m.end..|s|] + [] == s[m.end..];
  }

  /** Replacing a single character by text that lacks it removes it entirely. */
  lemma {:induction false} ReplaceCharRemoves(c: char, text: string, s: string, i: nat)
    requires c !in text && i <= |s|
    ensures WellFormed(Rule(Literal([c]), [Verbatim(text)]))
    ensures c !in SubFrom(Rule(Literal([c]), [Verbatim(text)]), s, i)
    decreases |s| - i
  {
    var r := Rule(Literal([c]), [Verbatim(text)]);
    assert Ascending(r.template[1..], 0);
    if i < |s| {
      ReplaceCharRemoves(c, text, s, i + 1);
      if s[i] == c {
        assert StartsAt(s, [c], i);
        assert Expand(r.template, []) == text;
      } else {
        assert s[i..i + 1][0] == s[i];
        assert !StartsAt(s, [c], i);
      }
    }
  }

  /** The `replace(needle, text)` rule. */
  function ReplaceRule(needle: Needle, text: string): (r: Rule)
    ensures WellFormed(r) && r.pattern.Literal?
  {
    var r := Rule(Literal(needle), [Verbatim(text)]);
    assert Ascending(r.template[1..], 0);
    r
  }

  /** `s.replace(needle, text)` leaves a subject without `needle` unchanged. */
  lemma ReplaceAbsent(needle: Needle, text: string, s: string)
    requires !Occurs(s, needle)
    ensures Sub(ReplaceRule(needle, text), s) == s
  {
    forall t | 0 <= t < |s| ensures MatchAt(Literal(needle), s, t).None? {
      assert !StartsAt(s, needle, t);
    }
    SubUnchanged(ReplaceRule(needle, text), s);
  }

  /** A prefix without the needle's first character holds no occurrence of the
      needle, even when the needle's own first characters follow it. */
  lemma FirstCharAbsent(needle: Needle, prefix: string)
    requires needle[0] !in prefix
    ensures !Occurs(prefix + needle[..|needle| - 1], needle)
  {
  }

  /** An occurrence of the needle, with none starting before it and none in what
      follows it, is the only thing `replace` rewrites. */
  lemma ReplaceOnce(needle: Needle, text: string, prefix: string, suffix: string)
    requires !Occurs(prefix + needle[..|needle| - 1], needle) && !Occurs(suffix, needle)
    ensures Sub(ReplaceRule(needle, text), prefix + needle + suffix) == prefix + text + suffix
  {
    var r := ReplaceRule(needle, text);
    var s := prefix + needle + suffix;
    var p, n := |prefix|, |needle|;
    var head := prefix + needle[..n - 1];
    assert head == s[..p + n - 1];
    assert s[p..p + n] == needle;
    assert s[..p] == prefix && s[p + n..] == suffix;
    forall t | 0 <= t < p ensures MatchAt(r.pattern, s, t).None? {
      assert !StartsAt(head, needle, t);
      assert head[t..t + n] == s[t..t + n];
    }
    forall t | p + n <= t < |s| ensures MatchAt(r.pattern, s, t).None? {
      assert !StartsAt(suffix, needle, t - p - n);
      if t + n <= |s| {
        assert suffix[t - p - n..t - p - n + n] == s[t..t + n];
      }
    }
    SubOneMatch(r, s, p, Match(p + n, []));
    assert Expand(r.template, []) == text;
  }
}
