/** Season identifiers `"<year>-<month>"`: validation of a configured override and
    the quarter-start month of the current date. */
module Season {
  import opened Outcomes
  import opened Decimal

  /** The first position of `c` in `s`. */
  function IndexOf(s: string, c: char): (i: nat)
    requires c in s
    ensures i < |s| && s[i] == c && c !in s[..i]
  {
    if s[0] == c then 0
    else
      var j := IndexOf(s[1..], c);
      assert s[..j + 1] == [s[0]] + s[1..][..j];
      j + 1
  }

  /** `s.split(sep)` for a one-character separator. */
  function Split(s: string, sep: char): (parts: seq<string>)
    ensures |parts| >= 1
    ensures forall k :: 0 <= k < |parts| ==> sep !in parts[k]
    decreases |s|
  {
    if sep !in s then [s]
    else
      var i := IndexOf(s, sep);
      [s[..i]] + Split(s[i + 1..], sep)
  }

  /** `sep.join(parts)`. */
  function Join(parts: seq<string>, sep: char): string
    requires |parts| >= 1
  {
    if |parts| == 1 then parts[0] else parts[0] + [sep] + Join(parts[1..], sep)
  }

  /** Joining the pieces gives back the string. */
  lemma {:induction false} JoinSplit(s: string, sep: char)
    ensures Join(Split(s, sep), sep) == s
    decreases |s|
  {
    if sep in s {
      var i := IndexOf(s, sep);
      JoinSplit(s[i + 1..], sep);
      assert Split(s, sep)[1..] == Split(s[i + 1..], sep);
      assert s == s[..i] + [sep] + s[i + 1..];
    }
  }

  /** The separator after a separator-free head is the first one. */
  lemma IndexAfterHead(head: string, sep: char, rest: string)
    requires sep !in head
    ensures IndexOf(head + [sep] + rest, sep) == |head|
  {
    var s := head + [sep] + rest;
    assert s[|head|] == sep;
    assert forall j :: 0 <= j < |head| ==> s[j] == head[j] != sep;
    assert s[..|head| + 1][|head|] == sep;
  }

  /** Splitting a join of separator-free pieces gives back the pieces. */
  lemma {:induction false} SplitJoin(parts: seq<string>, sep: char)
    requires |parts| >= 1
    requires forall k :: 0 <= k < |parts| ==> sep !in parts[k]
    ensures Split(Join(parts, sep), sep) == parts
  {
    if |parts| > 1 {
      var head, rest := parts[0], Join(parts[1..], sep);
      var s := head + [sep] + rest;
      assert Join(parts, sep) == s;
      IndexAfterHead(head, sep, rest);
      assert s[..|head|] == head && s[|head| + 1..] == rest;
      assert Split(s, sep) == [head] + Split(rest, sep);
      SplitJoin(parts[1..], sep);
      assert parts == [head] + parts[1..];
    }
  }

  /** The months a quarter starts in. */
  predicate IsQuarterStart(m: int) {
    m == 1 || m == 4 || m == 7 || m == 10
  }

  /** `__validate_custom_season`: a non-empty string that splits at `-` into two
      integers, a quarter-start month and a year after 2000. */
  function ValidateCustomSeason(season: string): bool {
    if season == [] then false
    else
      var parts := Split(season, '-');
      if |parts| != 2 then false
      else match (ParseInt(parts[0]), ParseInt(parts[1]))
        case (Some(year), Some(month)) => IsQuarterStart(month) && year > 2000
        case _ => false
  }

  /** The same condition read off the string itself: one dash with decimal numbers
      on both sides, a quarter-start month after it and a year after 2000 before it. */
  ghost predicate SeasonShape(season: string) {
    exists k :: 0 <= k < |season| && season[k] == '-'
      && IsDecimal(season[..k]) && IsDecimal(season[k + 1..])
      && IsQuarterStart(DecimalValue(season[k + 1..])) && DecimalValue(season[..k]) > 2000
  }

  lemma DecimalHasNoDash(s: string)
    requires IsDecimal(s)
    ensures '-' !in s
  {
    assert forall k :: 0 <= k < |s| ==> s[k] != '-';
  }

  lemma ValidateMeaning(season: string)
    ensures ValidateCustomSeason(season) <==> SeasonShape(season)
  {
    if ValidateCustomSeason(season) {
      ValidShaped(season);
    }
    if SeasonShape(season) {
      var k :| 0 <= k < |season| && season[k] == '-'
        && IsDecimal(season[..k]) && IsDecimal(season[k + 1..])
        && IsQuarterStart(DecimalValue(season[k + 1..])) && DecimalValue(season[..k]) > 2000;
      ShapedValid(season, k);
    }
  }

  lemma ValidShaped(season: string)
    requires ValidateCustomSeason(season)
    ensures SeasonShape(season)
  {
    var parts := Split(season, '-');
    JoinSplit(season, '-');
    assert parts[1..] == [parts[1]];
    var k := |parts[0]|;
    assert season == parts[0] + "-" + parts[1];
    assert season[..k] == parts[0] && season[k + 1..] == parts[1];
    assert season[k] == '-';
  }

  lemma ShapedValid(season: string, k: nat)
    requires k < |season| && season[k] == '-'
    requires IsDecimal(season[..k]) && IsDecimal(season[k + 1..])
    requires IsQuarterStart(DecimalValue(season[k + 1..])) && DecimalValue(season[..k]) > 2000
    ensures ValidateCustomSeason(season)
  {
    var parts := [season[..k], season[k + 1..]];
    DecimalHasNoDash(parts[0]);
    DecimalHasNoDash(parts[1]);
    assert Join(parts, '-') == season by {
      assert parts[1..] == [parts[1]];
      assert season == season[..k] + [season[k]] + season[k + 1..];
    }
    SplitJoin(parts, '-');
  }

  /** `f'{year}-{month}'`. */
  function SeasonId(year: nat, month: nat): string {
    NatToString(year) + "-" + NatToString(month)
  }

  /** A rendered season passes validation exactly when it names a quarter start
      after 2000. */
  lemma ValidateSeasonId(year: nat, month: nat)
    ensures ValidateCustomSeason(SeasonId(year, month)) <==> IsQuarterStart(month) && year > 2000
  {
    var parts := [NatToString(year), NatToString(month)];
    RenderedHasNoDash(year);
    RenderedHasNoDash(month);
    assert Join(parts, '-') == SeasonId(year, month) by {
      assert parts[1..] == [parts[1]];
    }
    SplitJoin(parts, '-');
    ParseRendered(year);
    ParseRendered(month);
  }

  /** The largest quarter-start month not after `m`, if any. */
  function LatestQuarterStart(m: int): (q: Option<nat>)
    ensures q.None? <==> m < 1
    ensures q.Some? ==> IsQuarterStart(q.value) && q.value <= m
    ensures q.Some? ==> forall k :: q.value < k <= m ==> !IsQuarterStart(k)
  {
    if m < 1 then None
    else if m >= 10 then Some(10)
    else Some(3 * ((m - 1) / 3) + 1)
  }

  /** The season `__get_ani_season` picks: a valid override when overrides are on,
      otherwise the quarter that holds `month` of `year`. The month is the one
      passed in, or the current one when none (or 0) is passed. */
  function SeasonFor(getCustomSeason: bool, customSeason: Option<string>, year: nat,
                     nowMonth: int, idxMonth: Option<int>): Option<string>
  {
    if getCustomSeason && customSeason.Some? && customSeason.value != []
       && ValidateCustomSeason(customSeason.value) then customSeason
    else
      var month := if idxMonth.Some? && idxMonth.value != 0 then idxMonth.value else nowMonth;
      match LatestQuarterStart(month)
      case None => None
      case Some(q) => Some(SeasonId(year, q))
  }

  /** An override that is switched off, missing or invalid (such as "2025-2") is
      ignored: the season is the quarter that holds the current month. */
  lemma OverrideIgnored(getCustomSeason: bool, customSeason: Option<string>, year: nat, nowMonth: int)
    requires 1 <= nowMonth <= 12
    requires !(getCustomSeason && customSeason.Some? && ValidateCustomSeason(customSeason.value))
    ensures SeasonFor(getCustomSeason, customSeason, year, nowMonth, None)
      == Some(SeasonId(year, 3 * ((nowMonth - 1) / 3) + 1))
  {
  }

  /** With overrides switched on, a valid override is the season, verbatim. */
  lemma OverrideUsed(customSeason: string, year: nat, nowMonth: int, idxMonth: Option<int>)
    requires ValidateCustomSeason(customSeason)
    ensures SeasonFor(true, Some(customSeason), year, nowMonth, idxMonth) == Some(customSeason)
  {
  }

  /** The computed season of a year after 2000 would itself pass as an override. */
  lemma ComputedSeasonValid(getCustomSeason: bool, customSeason: Option<string>, year: nat, nowMonth: int)
    requires 1 <= nowMonth <= 12 && year > 2000
    ensures SeasonFor(getCustomSeason, customSeason, year, nowMonth, None).Some?
    ensures ValidateCustomSeason(SeasonFor(getCustomSeason, customSeason, year, nowMonth, None).value)
  {
    var q := LatestQuarterStart(nowMonth).value;
    ValidateSeasonId(year, q);
  }
}
