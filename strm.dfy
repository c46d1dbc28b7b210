/** Strm files: a text file `<storage>/<name>.strm` holding the URL the
    media server streams from. The filesystem is a map from path to content;
    `unwritable` names the paths whose `open(path, 'w')` fails. */
module Strm {
  import opened Outcomes
  import opened Quoting
  import opened UrlFormat

  /** What a run of strm-file creation reads but does not change. `date` is the
      season last chosen, None while it was never set. */
  datatype Env = Env(domain: string, storage: string, date: Option<string>, unwritable: set<string>)

  /** `f'{storageplace}/{file_name}.strm'`. */
  function StrmPath(storage: string, name: string): string {
    storage + "/" + name + ".strm"
  }

  /** The URL a season-listing entry streams from. */
  function SeasonFileUrl(domain: string, date: string, name: string): string {
    "https://" + domain + "/" + date + "/" + Quote(name)
  }

  /** The shaped URL written into the strm file; an empty `link` means the name
      came from the season listing, which needs the season to have been chosen. */
  function SourceUrl(env: Env, name: string, link: string): (o: Outcome<string>)
    ensures o.Raised? <==> link == [] && env.date.None?
    ensures o.Raised? ==> o.error == AttributeError
    ensures link != [] ==> o == Returned(ShapeUrl(link))
    ensures link == [] && env.date.Some? ==>
      o == Returned(ShapeUrl(SeasonFileUrl(env.domain, env.date.value, name)))
  {
    if link == [] then
      if env.date.None? then Raised(AttributeError)
      else Returned(ShapeUrl(SeasonFileUrl(env.domain, env.date.value, name)))
    else Returned(ShapeUrl(link))
  }

  /** The outcome of one `__touch_strm_file` call and the filesystem after it. */
  datatype Touched = Touched(result: Outcome<bool>, files: map<string, string>)

  function TouchOne(env: Env, files: map<string, string>, name: string, link: string): (t: Touched)
    ensures t.result == Returned(true) <==>
      SourceUrl(env, name, link).Returned? && StrmPath(env.storage, name) !in files
      && StrmPath(env.storage, name) !in env.unwritable
    ensures t.result == Returned(true) ==>
      t.files == files[StrmPath(env.storage, name) := SourceUrl(env, name, link).value]
    ensures t.result != Returned(true) ==> t.files == files
    ensures t.result.Raised? <==> link == [] && env.date.None?
  {
    match SourceUrl(env, name, link)
    case Raised(x) => Touched(Raised(x), files)
    case Returned(url) =>
      var path := StrmPath(env.storage, name);
      if path in files then Touched(Returned(false), files)
      else if path in env.unwritable then Touched(Returned(false), files)
      else Touched(Returned(true), files[path := url])
  }

  /** Where a run over `(name, link)` items stands: the filesystem, how many files
      it created, and the error that stopped it, if any. */
  datatype Tally = Tally(files: map<string, string>, created: nat, error: Option<Failure>)

  /** The counting loop of `__task` over `items`. */
  function TouchEach(env: Env, files: map<string, string>, items: seq<(string, string)>): Tally
    decreases |items|
  {
    if items == [] then Tally(files, 0, None)
    else
      var t := TouchEach(env, files, items[..|items| - 1]);
      if t.error.Some? then t
      else
        var item := items[|items| - 1];
        var step := TouchOne(env, t.files, item.0, item.1);
        match step.result
        case Raised(x) => Tally(t.files, t.created, Some(x))
        case Returned(made) => Tally(step.files, if made then t.created + 1 else t.created, None)
  }

  /** Files are only ever added: nothing present before is lost or rewritten, and
      the count is exactly the number of new paths, hence at most one per item. */
  lemma {:induction false} TouchEachGrows(env: Env, files: map<string, string>, items: seq<(string, string)>)
    ensures files.Keys <= TouchEach(env, files, items).files.Keys
    ensures forall p :: p in files ==> TouchEach(env, files, items).files[p] == files[p]
    ensures |TouchEach(env, files, items).files.Keys| == |files.Keys| + TouchEach(env, files, items).created
    ensures TouchEach(env, files, items).created <= |items|
    decreases |items|
  {
    if items != [] {
      var init := items[..|items| - 1];
      TouchEachGrows(env, files, init);
      var t := TouchEach(env, files, init);
      if t.error.None? {
        var item := items[|items| - 1];
        var step := TouchOne(env, t.files, item.0, item.1);
        if step.result == Returned(true) {
          var path := StrmPath(env.storage, item.0);
          assert step.files.Keys == t.files.Keys + {path};
        }
      }
    }
  }

  /** A run that ends without error has every item's path in place or unwritable,
      and no item of it raises. */
  lemma {:induction false} TouchEachCovers(env: Env, files: map<string, string>, items: seq<(string, string)>)
    requires TouchEach(env, files, items).error.None?
    ensures forall k :: 0 <= k < |items| ==>
      StrmPath(env.storage, items[k].0) in TouchEach(env, files, items).files
      || StrmPath(env.storage, items[k].0) in env.unwritable
    ensures forall k :: 0 <= k < |items| ==> SourceUrl(env, items[k].0, items[k].1).Returned?
    decreases |items|
  {
    if items != [] {
      var n := |items|;
      var init := items[..n - 1];
      TouchEachCovers(env, files, init);
      var t := TouchEach(env, files, init);
      var item := items[n - 1];
      var step := TouchOne(env, t.files, item.0, item.1);
      assert TouchEach(env, files, items).files == step.files;
      assert t.files.Keys <= step.files.Keys;
      forall k | 0 <= k < n
        ensures StrmPath(env.storage, items[k].0) in step.files || StrmPath(env.storage, items[k].0) in env.unwritable
        ensures SourceUrl(env, items[k].0, items[k].1).Returned?
      {
        if k < n - 1 {
          assert items[k] == init[k];
        }
      }
    }
  }

  /** A run over items that are all in place changes nothing and counts nothing. */
  lemma {:induction false} TouchEachSettled(env: Env, files: map<string, string>, items: seq<(string, string)>)
    requires forall k :: 0 <= k < |items| ==>
      StrmPath(env.storage, items[k].0) in files || StrmPath(env.storage, items[k].0) in env.unwritable
    requires forall k :: 0 <= k < |items| ==> SourceUrl(env, items[k].0, items[k].1).Returned?
    ensures TouchEach(env, files, items) == Tally(files, 0, None)
    decreases |items|
  {
    if items != [] {
      var init := items[..|items| - 1];
      assert forall k :: 0 <= k < |init| ==> init[k] == items[k];
      TouchEachSettled(env, files, init);
    }
  }

  /** Running the same items a second time creates no file. */
  lemma SecondRunCreatesNothing(env: Env, files: map<string, string>, items: seq<(string, string)>)
    requires TouchEach(env, files, items).error.None?
    ensures TouchEach(env, TouchEach(env, files, items).files, items)
      == Tally(TouchEach(env, files, items).files, 0, None)
  {
    TouchEachCovers(env, files, items);
    TouchEachSettled(env, TouchEach(env, files, items).files, items);
  }

  /** Two items with the same name, one after the other, create at most one file. */
  lemma DuplicateCreatesOnce(env: Env, files: map<string, string>, items: seq<(string, string)>,
                             name: string, link: string, link2: string)
    ensures TouchEach(env, files, items + [(name, link), (name, link2)]).created
      <= TouchEach(env, files, items).created + 1
  {
    var once := items + [(name, link)];
    var twice := once + [(name, link2)];
    assert items + [(name, link), (name, link2)] == twice;
    assert twice[..|twice| - 1] == once;
    assert once[..|once| - 1] == items;
    var t0 := TouchEach(env, files, items);
    var t1 := TouchEach(env, files, once);
    if t0.error.None? {
      var step := TouchOne(env, t0.files, name, link);
      if step.result == Returned(true) {
        assert StrmPath(env.storage, name) in t1.files;
      }
    }
  }

  /** The strm paths the names of `items` lead to. */
  function Paths(storage: string, items: seq<(string, string)>): set<string> {
    set k | 0 <= k < |items| :: StrmPath(storage, items[k].0)
  }

  /** A run creates no file outside the paths its items name. */
  lemma {:induction false} TouchEachPaths(env: Env, files: map<string, string>, items: seq<(string, string)>)
    ensures TouchEach(env, files, items).files.Keys <= files.Keys + Paths(env.storage, items)
    decreases |items|
  {
    if items != [] {
      var n := |items|;
      var init := items[..n - 1];
      TouchEachPaths(env, files, init);
      assert Paths(env.storage, init) <= Paths(env.storage, items) by {
        forall p | p in Paths(env.storage, init) ensures p in Paths(env.storage, items) {
          var k :| 0 <= k < |init| && p == StrmPath(env.storage, init[k].0);
          assert init[k] == items[k];
        }
      }
      assert StrmPath(env.storage, items[n - 1].0) in Paths(env.storage, items);
    }
  }

  /** A run creates at most one file per distinct name, however often a name repeats. */
  lemma DistinctNamesBound(env: Env, files: map<string, string>, items: seq<(string, string)>)
    ensures TouchEach(env, files, items).created <= |Paths(env.storage, items)|
  {
    TouchEachGrows(env, files, items);
    TouchEachPaths(env, files, items);
    var t := TouchEach(env, files, items);
    GrowthBound(files.Keys, t.files.Keys, Paths(env.storage, items), t.created);
  }

  /** A set grown by `added` elements, all drawn from `pool`, grew by at most `|pool|`. */
  lemma GrowthBound<T>(before: set<T>, after: set<T>, pool: set<T>, added: nat)
    requires before <= after <= before + pool
    requires |after| == |before| + added
    ensures added <= |pool|
  {
    SubsetSize(after - before, pool);
    assert after == (after - before) + before;
  }

  lemma {:induction false} SubsetSize<T>(a: set<T>, b: set<T>)
    requires a <= b
    ensures |a| <= |b|
    decreases |a|
  {
    if a != {} {
      var x :| x in a;
      SubsetSize(a - {x}, b - {x});
    }
  }

  /** One more item: the run so far, followed by one touch. */
  lemma TouchEachStep(env: Env, files: map<string, string>, items: seq<(string, string)>, i: nat)
    requires i < |items|
    ensures var t := TouchEach(env, files, items[..i]);
      var step := TouchOne(env, t.files, items[i].0, items[i].1);
      TouchEach(env, files, items[..i + 1]) ==
        if t.error.Some? then t
        else if step.result.Raised? then Tally(t.files, t.created, Some(step.result.error))
        else Tally(step.files, if step.result.value then t.created + 1 else t.created, None)
  {
    assert items[..i + 1][..i] == items[..i];
  }

  /** The counting loop's bookkeeping for one touch: a raise ends the whole run with
      that error, a return extends the run by one item. */
  lemma TallyAdvance(env: Env, start: map<string, string>, items: seq<(string, string)>, i: nat,
                     cnt: nat, before: map<string, string>, o: Outcome<bool>, after: map<string, string>)
    requires i < |items|
    requires Tally(before, cnt, None) == TouchEach(env, start, items[..i])
    requires Touched(o, after) == TouchOne(env, before, items[i].0, items[i].1)
    ensures o.Raised? ==> TouchEach(env, start, items) == Tally(before, cnt, Some(o.error))
    ensures o.Returned? ==>
      TouchEach(env, start, items[..i + 1]) == Tally(after, if o.value then cnt + 1 else cnt, None)
  {
    TouchEachStep(env, start, items, i);
    if o.Raised? {
      TouchEachStops(env, start, items, i + 1);
    }
  }

  /** An error stops the run: the items after it are never looked at. */
  lemma {:induction false} TouchEachStops(env: Env, files: map<string, string>, items: seq<(string, string)>, j: nat)
    requires j <= |items| && TouchEach(env, files, items[..j]).error.Some?
    ensures TouchEach(env, files, items) == TouchEach(env, files, items[..j])
    decreases |items|
  {
    if j < |items| {
      var init := items[..|items| - 1];
      assert init[..j] == items[..j];
      TouchEachStops(env, files, init, j);
    } else {
      assert items[..j] == items;
    }
  }

  /** Only a season-listing item touched before any season was chosen raises. */
  lemma {:induction false} TouchEachNoError(env: Env, files: map<string, string>, items: seq<(string, string)>)
    requires env.date.Some? || forall k :: 0 <= k < |items| ==> items[k].1 != []
    ensures TouchEach(env, files, items).error.None?
    decreases |items|
  {
    if items != [] {
      var init := items[..|items| - 1];
      assert forall k :: 0 <= k < |init| ==> init[k] == items[k];
      TouchEachNoError(env, files, init);
    }
  }
}
