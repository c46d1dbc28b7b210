/** The plugin itself: title conversion, the two retried listings (the RSS feed and
    the season folder), and the task that turns their entries into strm files.
    The plugin's fields that the task changes are the filesystem and the chosen
    season; the configuration is fixed for the length of a run. */
module AniStrm {
  import opened Outcomes
  import opened Text
  import opened ReSub
  import opened CleanRules
  import TitleCleaner
  import opened Season
  import opened Retry
  import opened Listing
  import opened Strm
  import opened UrlFormat

  /** The host the feed's links point at, replaced by the configured domain. */
  const FeedHost: Needle := "resources.ani.rip"

  /** Both listings are wrapped as `retry(Exception, tries=3, ret=[])`, with the
      decorator's default delay of 3 seconds and backoff of 1. */
  const Tries: int := 3
  const RetryDelay: int := 3
  const Backoff: int := 1

  // ---------------------------------------------------------------- titles

  /** `_convert_title` as intended: clean the title, then convert traditional to
      simplified characters when that is switched on (`opencc` stands for the
      OpenCC `t2s` converter). */
  function ConvertTitle(convertTraditional: bool, opencc: string -> string, title: string): string {
    var cleaned := TitleCleaner.CleanFilename(title);
    if convertTraditional then opencc(cleaned) else cleaned
  }

  /** Without the traditional-to-simplified step, a converted title holds no
      full-width character, is never longer than the title, and a plain title with
      no CJK character comes back unchanged. */
  lemma ConvertTitleCleans(opencc: string -> string, title: string)
    ensures NoFullwidth(ConvertTitle(false, opencc, title))
    ensures |ConvertTitle(false, opencc, title)| <= |title|
    ensures NoFullwidth(title) && NoCjk(title) ==> ConvertTitle(false, opencc, title) == title
  {
    TitleCleaner.CleanRemovesFullwidth(title);
    TitleCleaner.CleanNeverLonger(title);
    if NoFullwidth(title) && NoCjk(title) {
      TitleCleaner.CleanKeepsPlainTitle(title);
    }
  }

  /** The conversion the walk and the feed mapping apply to each title. */
  function Converter(convertTraditional: bool, opencc: string -> string): string -> Outcome<string> {
    t => Returned(ConvertTitle(convertTraditional, opencc, t))
  }

  /** `_convert_title` as written: `self._clean_filename(title)` passes the plugin
      and the title to a function that takes one parameter, so every call raises. */
  function ConvertTitleAsWritten(title: string): Outcome<string> {
    Raised(TypeError)
  }

  // ---------------------------------------------------------------- the feed

  /** `link.replace("resources.ani.rip", domain)`. */
  function ReplaceHost(link: string, domain: string): string {
    Sub(ReplaceRule(FeedHost, domain), link)
  }

  /** The feed items as `get_latest_list` builds them from `(title, link)` pairs; the
      first conversion that raises aborts the list. */
  function MapFeed(convert: string -> Outcome<string>, domain: string, raw: seq<(string, string)>)
    : Outcome<seq<(string, string)>>
  {
    if raw == [] then Returned([])
    else match convert(raw[0].0)
      case Raised(x) => Raised(x)
      case Returned(title) =>
        match MapFeed(convert, domain, raw[1..])
        case Raised(x) => Raised(x)
        case Returned(rest) => Returned([(title, ReplaceHost(raw[0].1, domain))] + rest)
  }

  /** A link on the feed's host is moved to the configured domain. */
  lemma FeedHostRewritten(domain: string, path: string)
    requires !Occurs(path, FeedHost)
    ensures ReplaceHost("https://" + FeedHost + path, domain) == "https://" + domain + path
  {
    assert FeedHost[0] == 'r';
    FirstCharAbsent(FeedHost, "https://");
    ReplaceOnce(FeedHost, domain, "https://", path);
  }

  /** A link elsewhere is kept as it is. */
  lemma FeedLinkKept(domain: string, link: string)
    requires !Occurs(link, FeedHost)
    ensures ReplaceHost(link, domain) == link
  {
    ReplaceAbsent(FeedHost, domain, link);
  }

  /** With a conversion that never raises, every item is kept, in order, with its
      title converted and its link moved to the domain. */
  lemma {:induction false} MapFeedConverts(convert: string -> Outcome<string>, f: string -> string,
                                           domain: string, raw: seq<(string, string)>)
    requires forall t :: convert(t) == Returned(f(t))
    ensures MapFeed(convert, domain, raw).Returned?
    ensures |MapFeed(convert, domain, raw).value| == |raw|
    ensures forall k :: 0 <= k < |raw| ==>
      MapFeed(convert, domain, raw).value[k] == (f(raw[k].0), ReplaceHost(raw[k].1, domain))
  {
    if raw != [] {
      MapFeedConverts(convert, f, domain, raw[1..]);
      var rest := MapFeed(convert, domain, raw[1..]).value;
      var all := MapFeed(convert, domain, raw).value;
      assert all == [(f(raw[0].0), ReplaceHost(raw[0].1, domain))] + rest;
      forall k | 1 <= k < |raw| ensures all[k] == (f(raw[k].0), ReplaceHost(raw[k].1, domain)) {
        assert all[k] == rest[k - 1] && raw[1..][k - 1] == raw[k];
      }
    }
  }

  /** With a conversion that always raises, only an empty feed gives a list. */
  lemma MapFeedRaising(convert: string -> Outcome<string>, domain: string, raw: seq<(string, string)>)
    requires forall t :: convert(t).Raised?
    ensures MapFeed(convert, domain, raw).Returned? <==> raw == []
  {
  }

  // ---------------------------------------------------------------- the retried listings

  /** One attempt of `get_latest_list`, given what the k-th fetch of the feed gives. */
  function FeedAttempt(convert: string -> Outcome<string>, domain: string,
                       feed: nat -> Outcome<seq<(string, string)>>): nat -> Outcome<seq<(string, string)>>
  {
    (k: nat) => match feed(k)
         case Raised(x) => Raised(x)
         case Returned(raw) => MapFeed(convert, domain, raw)
  }

  /** One attempt of `get_current_season_list`, given what the k-th fetch of the
      season folder gives. */
  function SeasonAttempt(convert: string -> Outcome<string>,
                         listing: nat -> Outcome<seq<Entry>>): nat -> Outcome<seq<string>>
  {
    (k: nat) => match listing(k)
         case Raised(x) => Raised(x)
         case Returned(es) => Collect(es, convert)
  }

  /** As written, both listings always come back empty: every attempt either fails
      or converts a title and raises TypeError, unless there was nothing to convert,
      and the retry answers `[]` in all those cases. A task over them creates nothing. */
  lemma AsWrittenListsEmpty(domain: string, feed: nat -> Outcome<seq<(string, string)>>,
                            listing: nat -> Outcome<seq<Entry>>, env: Env, files: map<string, string>)
    ensures RetryFrom(FeedAttempt(ConvertTitleAsWritten, domain, feed), 0, Tries, []) == []
    ensures RetryFrom(SeasonAttempt(ConvertTitleAsWritten, listing), 0, Tries, []) == []
    ensures TouchEach(env, files, []) == Tally(files, 0, None)
  {
    var feedCall := FeedAttempt(ConvertTitleAsWritten, domain, feed);
    var seasonCall := SeasonAttempt(ConvertTitleAsWritten, listing);
    ResultComesFromACall(feedCall, 0, Tries, []);
    ResultComesFromACall(seasonCall, 0, Tries, []);
    var r := RetryFrom(feedCall, 0, Tries, []);
    if r != [] {
      var j :| 0 <= j < Tries && feedCall(j) == Returned(r);
      MapFeedRaising(ConvertTitleAsWritten, domain, feed(j).value);
    }
    var s := RetryFrom(seasonCall, 0, Tries, []);
    if s != [] {
      var j :| 0 <= j < Tries && seasonCall(j) == Returned(s);
      CollectRaising(listing(j).value, ConvertTitleAsWritten);
    }
  }

  /** With the conversion corrected, the first season fetch that succeeds supplies
      the converted names of its video entries, depth first. */
  lemma CorrectedSeasonList(convertTraditional: bool, opencc: string -> string,
                            listing: nat -> Outcome<seq<Entry>>, j: nat)
    requires j < Tries && listing(j).Returned?
    requires forall t :: 0 <= t < j ==> listing(t).Raised?
    ensures RetryFrom(SeasonAttempt(Converter(convertTraditional, opencc), listing), 0, Tries, [])
      == MapNames(t => ConvertTitle(convertTraditional, opencc, t), VideoNames(listing(j).value))
  {
    var convert := Converter(convertTraditional, opencc);
    var call := SeasonAttempt(convert, listing);
    CollectConverts(listing(j).value, convert, t => ConvertTitle(convertTraditional, opencc, t));
    FirstSuccessWins(call, 0, Tries, [], j);
  }

  /** With the conversion corrected, the first feed fetch that succeeds supplies its
      items, titles converted and links moved to the domain. */
  lemma CorrectedFeedList(convertTraditional: bool, opencc: string -> string, domain: string,
                          feed: nat -> Outcome<seq<(string, string)>>, j: nat)
    requires j < Tries && feed(j).Returned?
    requires forall t :: 0 <= t < j ==> feed(t).Raised?
    ensures var items := RetryFrom(FeedAttempt(Converter(convertTraditional, opencc), domain, feed), 0, Tries, []);
      var raw := feed(j).value;
      |items| == |raw| &&
      forall k :: 0 <= k < |raw| ==>
        items[k] == (ConvertTitle(convertTraditional, opencc, raw[k].0), ReplaceHost(raw[k].1, domain))
  {
    var convert := Converter(convertTraditional, opencc);
    var call := FeedAttempt(convert, domain, feed);
    var raw := feed(j).value;
    MapFeedConverts(convert, t => ConvertTitle(convertTraditional, opencc, t), domain, raw);
    assert call(j) == MapFeed(convert, domain, raw);
    FirstSuccessWins(call, 0, Tries, [], j);
  }

  /** The counterpart of the as-written result: with the conversion corrected, the
      lists are as long as what their first successful fetches hold, so a feed item
      or a video in the folder reaches the task. */
  lemma CorrectedListsKeepEntries(convertTraditional: bool, opencc: string -> string, domain: string,
                                  feed: nat -> Outcome<seq<(string, string)>>, jf: nat,
                                  listing: nat -> Outcome<seq<Entry>>, js: nat)
    requires jf < Tries && feed(jf).Returned?
    requires forall t :: 0 <= t < jf ==> feed(t).Raised?
    requires js < Tries && listing(js).Returned?
    requires forall t :: 0 <= t < js ==> listing(t).Raised?
    ensures |RetryFrom(FeedAttempt(Converter(convertTraditional, opencc), domain, feed), 0, Tries, [])|
      == |feed(jf).value|
    ensures |RetryFrom(SeasonAttempt(Converter(convertTraditional, opencc), listing), 0, Tries, [])|
      == |VideoNames(listing(js).value)|
  {
    CorrectedFeedList(convertTraditional, opencc, domain, feed, jf);
    CorrectedSeasonList(convertTraditional, opencc, listing, js);
  }

  /** The pairs the full-add branch touches: each name with no link. */
  function Unlinked(names: seq<string>): (items: seq<(string, string)>)
    ensures |items| == |names|
    ensures forall k :: 0 <= k < |names| ==> items[k] == (names[k], [])
  {
    seq(|names|, k requires 0 <= k < |names| => (names[k], []))
  }

  // ---------------------------------------------------------------- the plugin

  class Plugin {
    const domain: string
    const storage: string
    const customSeason: Option<string>
    const getCustomSeason: bool
    const convertTraditional: bool
    const opencc: string -> string
    const unwritable: set<string>
    var files: map<string, string>
    var date: Option<string>

    constructor(domain: string, storage: string, customSeason: Option<string>, getCustomSeason: bool,
                convertTraditional: bool, opencc: string -> string, unwritable: set<string>,
                files: map<string, string>)
      ensures this.domain == domain && this.storage == storage
      ensures this.customSeason == customSeason && this.getCustomSeason == getCustomSeason
      ensures this.convertTraditional == convertTraditional && this.opencc == opencc
      ensures this.unwritable == unwritable && this.files == files && this.date == None
    {
      this.domain := domain;
      this.storage := storage;
      this.customSeason := customSeason;
      this.getCustomSeason := getCustomSeason;
      this.convertTraditional := convertTraditional;
      this.opencc := opencc;
      this.unwritable := unwritable;
      this.files := files;
      this.date := None;
    }

    function Env(): Env
      reads this
    {
      Strm.Env(domain, storage, date, unwritable)
    }

    /** `__get_ani_season`: a valid override when overrides are on, otherwise a scan
        down from the month for the first quarter start; the result is also stored
        as the chosen season. */
    method GetAniSeason(year: nat, nowMonth: int, idxMonth: Option<int>) returns (r: Option<string>)
      modifies this
      ensures r == SeasonFor(getCustomSeason, customSeason, year, nowMonth, idxMonth)
      ensures date == (if r.Some? then r else old(date))
      ensures files == old(files)
    {
      if getCustomSeason && customSeason.Some? && customSeason.value != []
         && ValidateCustomSeason(customSeason.value) {
        date := customSeason;
        return customSeason;
      }
      var current := if idxMonth.Some? && idxMonth.value != 0 then idxMonth.value else nowMonth;
      var month := current;
      while month > 0
        invariant month <= current
        invariant forall k :: month < k <= current ==> !IsQuarterStart(k)
        invariant date == old(date) && files == old(files)
      {
        if IsQuarterStart(month) {
          var q := LatestQuarterStart(current).value;
          assert q == month by {
            assert !(q < month) && !(month < q);
          }
          r := Some(SeasonId(year, month));
          date := r;
          return;
        }
        month := month - 1;
      }
      assert current >= 1 ==> IsQuarterStart(1);
      r := None;
    }

    /** `__touch_strm_file`: work out and shape the source URL, then create the
        strm file unless it exists or cannot be written. */
    method TouchStrmFile(name: string, link: string) returns (o: Outcome<bool>)
      modifies this
      ensures Touched(o, files) == TouchOne(old(Env()), old(files), name, link)
      ensures date == old(date)
    {
      var src: string;
      if link == [] {
        if date.None? {
          return Raised(AttributeError);
        }
        src := SeasonFileUrl(domain, date.value, name);
      } else {
        src := link;
      }
      if !IsUrlFormatValid(src) {
        src := ConvertUrlFormat(src);
      }
      var path := StrmPath(storage, name);
      if path in files {
        return Returned(false);
      }
      if path in unwritable {
        return Returned(false);
      }
      files := files[path := src];
      return Returned(true);
    }

    /** The counting loop of `__task`: `cnt` goes up by one for each file created; an
        error from a touch ends the task. */
    method TouchAll(items: seq<(string, string)>) returns (cnt: nat, err: Option<Failure>)
      modifies this
      ensures Tally(files, cnt, err) == TouchEach(old(Env()), old(files), items)
      ensures date == old(date)
    {
      ghost var env, start := Env(), files;
      cnt, err := 0, None;
      var i := 0;
      while i < |items|
        invariant 0 <= i <= |items|
        invariant date == old(date) && Env() == env
        invariant Tally(files, cnt, None) == TouchEach(env, start, items[..i])
      {
        ghost var before := files;
        var o := TouchStrmFile(items[i].0, items[i].1);
        TallyAdvance(env, start, items, i, cnt, before, o, files);
        if o.Raised? {
          err := Some(o.error);
          return;
        }
        if o.value {
          cnt := cnt + 1;
        }
        i := i + 1;
      }
      assert items[..i] == items;
    }

    /** `__task`: fetch the feed (incremental) or the season folder (full add), each
        through the retry, then touch a strm file per entry. The result is the
        number of files created, or the error that stopped the task. */
    method Task(fulladd: bool, year: nat, nowMonth: int,
                feed: nat -> Outcome<seq<(string, string)>>, listing: nat -> Outcome<seq<Entry>>)
      returns (o: Outcome<nat>)
      modifies this
      ensures !fulladd ==> date == old(date)
      ensures fulladd ==> date == (var s := SeasonFor(getCustomSeason, customSeason, year, nowMonth, None);
                                   if s.Some? then s else old(date))
      ensures var items := if fulladd
          then Unlinked(RetryFrom(SeasonAttempt(Converter(convertTraditional, opencc), listing), 0, Tries, []))
          else RetryFrom(FeedAttempt(Converter(convertTraditional, opencc), domain, feed), 0, Tries, []);
        var t := TouchEach(Env(), old(files), items);
        files == t.files && o == (if t.error.Some? then Raised(t.error.value) else Returned(t.created))
    {
      var convert := Converter(convertTraditional, opencc);
      var items: seq<(string, string)>;
      var calls: nat;
      ghost var sleeps: seq<int>;
      if !fulladd {
        items, calls, sleeps := RetryCall(FeedAttempt(convert, domain, feed), Tries, RetryDelay, Backoff, []);
      } else {
        var season := GetAniSeason(year, nowMonth, None);
        var names: seq<string>;
        names, calls, sleeps := RetryCall(SeasonAttempt(convert, listing), Tries, RetryDelay, Backoff, []);
        items := Unlinked(names);
      }
      var cnt, err := TouchAll(items);
      o := if err.Some? then Raised(err.value) else Returned(cnt);
    }
  }

  /** A full-add task never raises once the month is a real one: the season is
      chosen before any file is touched. */
  lemma FullAddNeverRaises(getCustomSeason: bool, customSeason: Option<string>, year: nat, nowMonth: int,
                           env: Env, files: map<string, string>, names: seq<string>)
    requires 1 <= nowMonth <= 12
    requires env.date == SeasonFor(getCustomSeason, customSeason, year, nowMonth, None)
    ensures TouchEach(env, files, Unlinked(names)).error.None?
  {
    TouchEachNoError(env, files, Unlinked(names));
  }
}
