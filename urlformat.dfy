/** The rules that bring a strm file's source URL into the `.mp4?d=true` shape
    the media server plays directly. */
module UrlFormat {
  import opened Text
  import opened ReSub

  const ValidSuffix: string := ".mp4?d=true"
  const DownloadQuery: Needle := "?d=mp4"
  const Mp4: string := ".mp4"

  /** `url.endswith('.mp4?d=true')`. */
  predicate IsUrlFormatValid(url: string) {
    EndsWith(url, ValidSuffix)
  }

  /** The three conversions, tried in order: rewrite every `?d=mp4`, complete a
      trailing `.mp4`, or append the whole suffix. */
  function ConvertUrlFormat(url: string): (r: string)
    ensures Occurs(url, DownloadQuery) ==> r == Sub(ReplaceRule(DownloadQuery, ValidSuffix), url)
    ensures !Occurs(url, DownloadQuery) && EndsWith(url, Mp4) ==> r == url + "?d=true"
    ensures !Occurs(url, DownloadQuery) && !EndsWith(url, Mp4) ==> r == url + ValidSuffix
    ensures !Occurs(url, DownloadQuery) ==> IsUrlFormatValid(r)
    ensures !Occurs(url, DownloadQuery) ==> |url| <= |r| && r[..|url|] == url
  {
    if Occurs(url, DownloadQuery) then
      Sub(ReplaceRule(DownloadQuery, ValidSuffix), url)
    else if EndsWith(url, Mp4) then
      var r := url + "?d=true";
      assert r[|r| - |ValidSuffix|..] == url[|url| - |Mp4|..] + "?d=true";
      assert r[..|url|] == url;
      r
    else
      EndsWithAppend(url, ValidSuffix);
      assert (url + ValidSuffix)[..|url|] == url;
      url + ValidSuffix
  }

  /** The check-then-convert step applied to every source URL before it is written. */
  function ShapeUrl(url: string): (r: string)
    ensures IsUrlFormatValid(url) ==> r == url
    ensures !IsUrlFormatValid(url) ==> r == ConvertUrlFormat(url)
    ensures !Occurs(url, DownloadQuery) ==> IsUrlFormatValid(r)
  {
    if IsUrlFormatValid(url) then url else ConvertUrlFormat(url)
  }

  /** Shaping a URL without `?d=mp4` yields the playable shape, so shaping it
      again changes nothing. */
  lemma ShapeSettles(url: string)
    requires !Occurs(url, DownloadQuery)
    ensures ShapeUrl(ShapeUrl(url)) == ShapeUrl(url)
  {
  }

  /** A `?d=mp4` query is rewritten in place; the result is playable exactly when
      nothing followed the query: `x?d=mp4` becomes `x.mp4?d=true`, while
      `x?d=mp4&t` becomes `x.mp4?d=true&t`, which ends differently. */
  lemma QueryRewritten(base: string, tail: string)
    requires '?' !in base && '?' !in tail
    ensures ShapeUrl(base + DownloadQuery + tail) == base + ValidSuffix + tail
    ensures IsUrlFormatValid(ShapeUrl(base + DownloadQuery + tail)) <==> tail == []
  {
    var url := base + DownloadQuery + tail;
    NoOccurrenceWithoutFirstChar(tail, DownloadQuery);
    FirstCharAbsent(DownloadQuery, base);
    ReplaceOnce(DownloadQuery, ValidSuffix, base, tail);
    assert url[|base|..|base| + |DownloadQuery|] == DownloadQuery;
    assert StartsAt(url, DownloadQuery, |base|);
    QueryNotValid(base, tail);
    RewrittenValid(base, tail);
  }

  /** A URL carrying one `?d=mp4` does not already end in `.mp4?d=true`. */
  lemma {:induction false} QueryNotValid(base: string, tail: string)
    requires '?' !in base && '?' !in tail
    ensures !IsUrlFormatValid(base + DownloadQuery + tail)
  {
    var u := base + DownloadQuery + tail;
    var b, n := |base|, |u|;
    // The only '?' of u is the query's, so the suffix's '?' cannot line up with it
    // unless exactly one character follows the query, where 'm' meets 't'.
    assert forall k :: 0 <= k < n && k != b ==> u[k] != '?';
    assert n < 11 || u[n - 7] != '?' || u[n - 4] != 't' by {
      if n >= 11 && n - 7 == b {
        assert u[n - 4] == DownloadQuery[3];
      }
    }
    assert n >= 11 ==> u[n - 11..][4] == u[n - 7] && u[n - 11..][7] == u[n - 4];
  }

  /** The rewritten URL ends in `.mp4?d=true` exactly when the query was last. */
  lemma {:induction false} RewrittenValid(base: string, tail: string)
    requires '?' !in tail
    ensures IsUrlFormatValid(base + ValidSuffix + tail) <==> tail == []
  {
    var r := base + ValidSuffix + tail;
    var n := |r|;
    if tail == [] {
      EndsWithAppend(base, ValidSuffix);
    } else {
      // Seven places from the end sits a character of the tail or of "d=true".
      assert r[n - 7] != '?' by {
        if |tail| >= 7 {
          assert r[n - 7] == tail[|tail| - 7];
        } else {
          assert r[n - 7] == ValidSuffix[4 + |tail|];
        }
      }
      assert r[n - 11..][4] == r[n - 7];
    }
  }
}
