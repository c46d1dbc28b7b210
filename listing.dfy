/** The walk over a season's remote listing: folders are entered depth first,
    `video/mp4` entries contribute their converted title, everything else is
    skipped. The listing a folder URL would return is the folder's `children`, so
    the tree bounds the recursion. */
module Listing {
  import opened Outcomes
  import opened Quoting

  const FolderType: string := "application/vnd.google-apps.folder"
  const VideoType: string := "video/mp4"

  /** One entry of a listing; `mimeType` is None when the entry has none. */
  datatype Entry = Entry(name: string, mimeType: Option<string>, children: seq<Entry>)

  predicate IsFolder(e: Entry) {
    e.mimeType == Some(FolderType)
  }

  predicate IsVideo(e: Entry) {
    e.mimeType == Some(VideoType)
  }

  /** Two steps in sequence: the first failure wins, otherwise the lists are joined. */
  function Then(x: Outcome<seq<string>>, y: Outcome<seq<string>>): Outcome<seq<string>> {
    if x.Raised? then x else if y.Raised? then y else Returned(x.value + y.value)
  }

  lemma ThenFacts(x: Outcome<seq<string>>, y: Outcome<seq<string>>, z: Outcome<seq<string>>)
    ensures Then(Then(x, y), z) == Then(x, Then(y, z))
    ensures Then(Returned([]), x) == x && Then(x, Returned([])) == x
  {
    if x.Returned? && y.Returned? && z.Returned? {
      assert x.value + y.value + z.value == x.value + (y.value + z.value);
    }
    if x.Returned? {
      assert [] + x.value == x.value && x.value + [] == x.value;
    }
  }

  /** What a non-folder entry contributes: its converted title if it is a video. */
  function Leaf(e: Entry, convert: string -> Outcome<string>): Outcome<seq<string>> {
    if IsVideo(e) then
      match convert(e.name)
      case Raised(x) => Raised(x)
      case Returned(t) => Returned([t])
    else Returned([])
  }

  /** What `_get_files` returns for a listing, converting each video's name with
      `convert`; the first conversion that raises aborts the walk. */
  function Collect(es: seq<Entry>, convert: string -> Outcome<string>): Outcome<seq<string>>
    decreases es
  {
    if es == [] then Returned([])
    else
      Then(if IsFolder(es[0]) then Collect(es[0].children, convert) else Leaf(es[0], convert),
           Collect(es[1..], convert))
  }

  /** The names of the video entries, depth first: the reference the walk is
      measured against. */
  function VideoNames(es: seq<Entry>): seq<string>
    decreases es
  {
    if es == [] then []
    else
      var e := es[0];
      (if IsFolder(e) then VideoNames(e.children) else if IsVideo(e) then [e.name] else [])
      + VideoNames(es[1..])
  }

  /** The folder URLs the walk requests below `url`, in the order it requests them:
      each folder's URL is its parent's URL, its quoted name and `/`. */
  function FolderUrls(url: string, es: seq<Entry>): seq<string>
    decreases es
  {
    if es == [] then []
    else
      var e := es[0];
      (if IsFolder(e) then
         var child := url + Quote(e.name) + "/";
         [child] + FolderUrls(child, e.children)
       else [])
      + FolderUrls(url, es[1..])
  }

  lemma {:induction false} CollectAppend(a: seq<Entry>, b: seq<Entry>, convert: string -> Outcome<string>)
    ensures Collect(a + b, convert) == Then(Collect(a, convert), Collect(b, convert))
    decreases a
  {
    if a != [] {
      CollectAppend(a[1..], b, convert);
      assert (a + b)[0] == a[0] && (a + b)[1..] == a[1..] + b;
      var x := if IsFolder(a[0]) then Collect(a[0].children, convert) else Leaf(a[0], convert);
      ThenFacts(x, Collect(a[1..], convert), Collect(b, convert));
    } else {
      assert a + b == b;
      ThenFacts(Collect(b, convert), Collect(b, convert), Collect(b, convert));
    }
  }

  /** The walk over one entry. */
  lemma CollectOne(e: Entry, convert: string -> Outcome<string>)
    ensures Collect([e], convert) == if IsFolder(e) then Collect(e.children, convert) else Leaf(e, convert)
  {
    assert [e][1..] == [];
    var x := if IsFolder(e) then Collect(e.children, convert) else Leaf(e, convert);
    ThenFacts(x, x, x);
  }

  /** The walk so far extended by one entry, and a failure that ends it early. */
  lemma CollectStep(listing: seq<Entry>, i: nat, convert: string -> Outcome<string>)
    requires i < |listing|
    ensures Collect(listing[..i + 1], convert) == Then(Collect(listing[..i], convert), Collect([listing[i]], convert))
    ensures Collect(listing[..i + 1], convert).Raised? ==> Collect(listing, convert) == Collect(listing[..i + 1], convert)
  {
    assert listing[..i + 1] == listing[..i] + [listing[i]];
    CollectAppend(listing[..i], [listing[i]], convert);
    assert listing == listing[..i + 1] + listing[i + 1..];
    CollectAppend(listing[..i + 1], listing[i + 1..], convert);
  }

  /** A listing's folder URLs are its first entry's followed by the rest's. */
  lemma FolderUrlsCons(url: string, es: seq<Entry>)
    requires es != []
    ensures FolderUrls(url, es) == FolderUrls(url, [es[0]]) + FolderUrls(url, es[1..])
  {
    assert [es[0]][1..] == [];
  }

  lemma {:induction false} FolderUrlsAppend(url: string, a: seq<Entry>, b: seq<Entry>)
    ensures FolderUrls(url, a + b) == FolderUrls(url, a) + FolderUrls(url, b)
    decreases a
  {
    if a != [] {
      var head := FolderUrls(url, [a[0]]);
      FolderUrlsCons(url, a);
      FolderUrlsCons(url, a + b);
      assert (a + b)[0] == a[0] && (a + b)[1..] == a[1..] + b;
      FolderUrlsAppend(url, a[1..], b);
      assert head + (FolderUrls(url, a[1..]) + FolderUrls(url, b))
        == (head + FolderUrls(url, a[1..])) + FolderUrls(url, b);
    } else {
      assert a + b == b;
    }
  }

  /** `_get_files(url)`: grows `files` with `append` for videos and `extend` with
      the result of the recursive call for folders. `urls` lists the folder URLs
      it requested. */
  method GetFiles(url: string, listing: seq<Entry>, convert: string -> Outcome<string>)
    returns (files: Outcome<seq<string>>, urls: seq<string>)
    ensures files == Collect(listing, convert)
    ensures files.Returned? ==> urls == FolderUrls(url, listing)
    decreases listing
  {
    var acc: seq<string> := [];
    urls := [];
    var i := 0;
    while i < |listing|
      invariant 0 <= i <= |listing|
      invariant Collect(listing[..i], convert) == Returned(acc)
      invariant urls == FolderUrls(url, listing[..i])
    {
      var e := listing[i];
      CollectStep(listing, i, convert);
      CollectOne(e, convert);
      ThenFacts(Returned(acc), Returned(acc), Returned(acc));
      FolderUrlsStep(url, listing, i);
      if IsFolder(e) {
        var child := url + Quote(e.name) + "/";
        var sub, subUrls := GetFiles(child, e.children, convert);
        if sub.Raised? {
          files := sub;
          return;
        }
        acc := acc + sub.value;
        urls := urls + ([child] + subUrls);
      } else if IsVideo(e) {
        var t := convert(e.name);
        if t.Raised? {
          files := Raised(t.error);
          return;
        }
        acc := acc + [t.value];
      }
      i := i + 1;
    }
    assert listing[..i] == listing;
    files := Returned(acc);
  }

  lemma FolderUrlsStep(url: string, listing: seq<Entry>, i: nat)
    requires i < |listing|
    ensures FolderUrls(url, listing[..i + 1]) == FolderUrls(url, listing[..i]) + FolderUrls(url, [listing[i]])
    ensures FolderUrls(url, [listing[i]]) ==
      if IsFolder(listing[i]) then
        var child := url + Quote(listing[i].name) + "/";
        [child] + FolderUrls(child, listing[i].children)
      else []
  {
    assert listing[..i + 1] == listing[..i] + [listing[i]];
    FolderUrlsAppend(url, listing[..i], [listing[i]]);
    assert [listing[i]][1..] == [];
  }

  /** `[f(n) for n in names]`. */
  function MapNames(f: string -> string, names: seq<string>): (r: seq<string>)
    ensures |r| == |names|
  {
    if names == [] then [] else [f(names[0])] + MapNames(f, names[1..])
  }

  lemma {:induction false} MapNamesAt(f: string -> string, names: seq<string>, k: nat)
    requires k < |names|
    ensures MapNames(f, names)[k] == f(names[k])
  {
    if k > 0 {
      MapNamesAt(f, names[1..], k - 1);
    }
  }

  /** With a conversion that never raises, the walk returns the converted names of
      exactly the video entries, depth first. */
  lemma {:induction false} CollectConverts(es: seq<Entry>, convert: string -> Outcome<string>, f: string -> string)
    requires forall t :: convert(t) == Returned(f(t))
    ensures Collect(es, convert) == Returned(MapNames(f, VideoNames(es)))
    decreases es
  {
    if es != [] {
      var e := es[0];
      CollectConverts(es[1..], convert, f);
      var head := if IsFolder(e) then VideoNames(e.children) else if IsVideo(e) then [e.name] else [];
      if IsFolder(e) {
        CollectConverts(e.children, convert, f);
      } else if IsVideo(e) {
        assert [e.name][1..] == [];
        assert MapNames(f, head) == [f(e.name)];
      }
      MapNamesAppend(f, head, VideoNames(es[1..]));
    }
  }

  lemma {:induction false} MapNamesAppend(f: string -> string, a: seq<string>, b: seq<string>)
    ensures MapNames(f, a + b) == MapNames(f, a) + MapNames(f, b)
  {
    if a != [] {
      MapNamesAppend(f, a[1..], b);
      assert (a + b)[0] == a[0] && (a + b)[1..] == a[1..] + b;
    } else {
      assert a + b == b;
    }
  }

  /** With a conversion that always raises, the walk returns nothing but the empty
      list: it raises exactly when some video entry exists. */
  lemma {:induction false} CollectRaising(es: seq<Entry>, convert: string -> Outcome<string>)
    requires forall t :: convert(t).Raised?
    ensures Collect(es, convert).Returned? <==> VideoNames(es) == []
    ensures Collect(es, convert).Returned? ==> Collect(es, convert).value == []
    decreases es
  {
    if es != [] {
      var e := es[0];
      CollectRaising(es[1..], convert);
      if IsFolder(e) {
        CollectRaising(e.children, convert);
      }
    }
  }

  /** `u` names a folder strictly below `url`. */
  predicate Below(url: string, u: string) {
    |url| < |u| && u[..|url|] == url && u[|u| - 1] == '/'
  }

  lemma BelowTrans(url: string, child: string, u: string)
    requires Below(url, child) && Below(child, u)
    ensures Below(url, u)
  {
    assert u[..|url|] == u[..|child|][..|url|];
  }

  /** Every requested folder lies strictly below the season URL and ends in `/`. */
  lemma {:induction false} FolderUrlsBelow(url: string, es: seq<Entry>)
    ensures forall k :: 0 <= k < |FolderUrls(url, es)| ==> Below(url, FolderUrls(url, es)[k])
    decreases es
  {
    if es != [] {
      var e := es[0];
      FolderUrlsBelow(url, es[1..]);
      var rest := FolderUrls(url, es[1..]);
      if IsFolder(e) {
        var child := url + Quote(e.name) + "/";
        assert Below(url, child) by {
          assert child[..|url|] == url;
        }
        FolderUrlsBelow(child, e.children);
        var sub := FolderUrls(child, e.children);
        forall k | 0 <= k < |sub| ensures Below(url, sub[k]) {
          BelowTrans(url, child, sub[k]);
        }
        var all := [child] + sub + rest;
        assert FolderUrls(url, es) == all;
        assert forall k :: 0 <= k < |all| ==> all[k] == child || all[k] in sub || all[k] in rest;
      } else {
        assert FolderUrls(url, es) == [] + rest;
      }
    }
  }
}
