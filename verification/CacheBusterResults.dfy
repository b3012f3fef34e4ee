/** What bundling does to every page and file, and exactly when it stops with an error. */
module CacheBusterResults {
  import opened JsStrings
  import opened CacheBuster
  import opened CacheBusterProofs

  // ------------------------------------------------------------ one page

  /** The page loads a source on its own, other than a last one that is the output itself. */
  ghost predicate ShowsSplit(page: Page, bundle: Bundle) {
    exists i, k :: 0 <= i < |page| && 0 <= k < |bundle.sources| && LoadsSource(page[i], bundle, k)
  }

  predicate LoadsSource(line: Line, bundle: Bundle, k: nat)
    requires k < |bundle.sources|
  {
    Loads(line) == Some(SourceAsset(bundle, k)) && (k < |bundle.sources| - 1 || bundle.sources[k] != bundle.output)
  }

  /** From the first line that loads the first source on, the lines load all sources in their order. */
  ghost predicate BlockAt(page: Page, bundle: Bundle, start: nat)
    requires bundle.sources != []
  {
    && start + |bundle.sources| <= |page|
    && (forall k :: 0 <= k < |bundle.sources| ==> Loads(page[start + k]) == Some(SourceAsset(bundle, k)))
    && (forall i :: 0 <= i < start ==> Loads(page[i]) != Some(SourceAsset(bundle, 0)))
  }

  /** The block is replaced by one line that loads the output, with the indent and the line end of its first line. */
  ghost predicate Spliced(page: Page, bundle: Bundle, start: nat, r: Page)
    requires bundle.sources != [] && start + |bundle.sources| <= |page|
  {
    && |r| == |page| - |bundle.sources| + 1
    && (forall i :: 0 <= i < start ==> r[i] == page[i])
    && Loads(r[start]) == Some(Asset(bundle.assetType, bundle.output))
    && r[start].indent == page[start].indent
    && r[start].end == (if EndsWithCRLF(page[start].end) then ['\r', '\n'] else ['\n'])
    && (forall i :: start < i < |r| ==> r[i] == page[i + |bundle.sources| - 1])
  }

  predicate EndsWithCRLF(end: string) {
    |end| >= 2 && end[|end| - 2] == '\r' && end[|end| - 1] == '\n'
  }

  lemma SplitExactly(page: Page, bundle: Bundle)
    requires WellFormed(bundle)
    ensures HasSplitTag(page, bundle) <==> ShowsSplit(page, bundle)
  {
    hide Loads, IsTag, PlainPath, FilesOf;
    PlainSources(bundle);
    forall i, k | 0 <= i < |page| && 0 <= k < |bundle.sources|
      ensures IsTag(page[i], SourceAsset(bundle, k)) <==> Loads(page[i]) == Some(SourceAsset(bundle, k))
    {
      TagLoads(page[i], SourceAsset(bundle, k));
    }
    if HasSplitTag(page, bundle) {
      var i :| 0 <= i < |page| && IsSplitTag(page[i], bundle);
      var k :| 0 <= k < SplitCount(bundle) && IsTag(page[i], SourceAsset(bundle, k));
      assert LoadsSource(page[i], bundle, k);
    }
    if ShowsSplit(page, bundle) {
      var i, k :| 0 <= i < |page| && 0 <= k < |bundle.sources| && LoadsSource(page[i], bundle, k);
      assert k < SplitCount(bundle) && IsTag(page[i], SourceAsset(bundle, k));
      assert IsSplitTag(page[i], bundle);
    }
  }

  lemma BlockExactly(page: Page, bundle: Bundle, start: nat)
    requires WellFormed(bundle)
    ensures BlockAt(page, bundle, start) <==>
              start == IndexOfTag(page, SourceAsset(bundle, 0)) && start < |page| && TagsAt(page, bundle, start)
  {
    hide Loads, IsTag, PlainPath, FilesOf, IndexOfTag;
    PlainSources(bundle);
    forall i, k | 0 <= i < |page| && 0 <= k < |bundle.sources|
      ensures IsTag(page[i], SourceAsset(bundle, k)) <==> Loads(page[i]) == Some(SourceAsset(bundle, k))
    {
      TagLoads(page[i], SourceAsset(bundle, k));
    }
    var at := IndexOfTag(page, SourceAsset(bundle, 0));
    if BlockAt(page, bundle, start) {
      assert Loads(page[start + 0]) == Some(SourceAsset(bundle, 0));
    }
  }

  lemma ReplacedIsSpliced(page: Page, bundle: Bundle, start: nat)
    requires WellFormed(bundle) && start + |bundle.sources| <= |page|
    ensures Spliced(page, bundle, start, Replaced(page, bundle, start))
  {
    hide Loads, PlainPath, FilesOf;
    ReplacementLoads(page[start], bundle);
    var end := page[start].end;
    assert |end| >= 2 ==> end[|end| - 2..] == [end[|end| - 2], end[|end| - 1]];
  }

  /** A page is left alone, rewritten or refused, in terms of what its lines load. */
  lemma CollapsesExactly(page: Page, bundle: Bundle)
    requires WellFormed(bundle)
    ensures CollapsePage(page, bundle).Untouched? <==> !ShowsSplit(page, bundle)
    ensures CollapsePage(page, bundle).Rewritten? <==> ShowsSplit(page, bundle) && exists start :: BlockAt(page, bundle, start)
    ensures forall start :: ShowsSplit(page, bundle) && BlockAt(page, bundle, start) ==>
              Spliced(page, bundle, start, CollapsePage(page, bundle).page)
  {
    hide Loads, IsTag, PlainPath, FilesOf, IndexOfTag, ShowsSplit, HasSplitTag, BlockAt, TagsAt, Spliced, ReplacementLine;
    SplitExactly(page, bundle);
    var at := IndexOfTag(page, SourceAsset(bundle, 0));
    forall start: nat
      ensures BlockAt(page, bundle, start) <==> start == at && start < |page| && TagsAt(page, bundle, start)
    {
      BlockExactly(page, bundle, start);
    }
    if at < |page| && TagsAt(page, bundle, at) {
      FitsIn(page, bundle, at);
      ReplacedIsSpliced(page, bundle, at);
    }
  }

  lemma FitsIn(page: Page, bundle: Bundle, start: nat)
    requires TagsAt(page, bundle, start)
    ensures start + |bundle.sources| <= |page|
  {}

  // ------------------------------------------------------------ one bundle

  /** A page that is listed `times` times; None when it is refused. */
  function Passes(page: Page, bundle: Bundle, times: nat): Option<Page>
    requires bundle.sources != []
    decreases times
  {
    if times == 0 then Some(page)
    else
      match CollapsePage(page, bundle)
      case Untouched => Some(page)
      case Incomplete => None
      case Rewritten(next) => Passes(next, bundle, times - 1)
  }

  function Times(names: seq<string>, name: string): nat {
    multiset(names)[name]
  }

  lemma {:induction false} StaysUntouched(page: Page, bundle: Bundle, times: nat)
    requires bundle.sources != [] && CollapsePage(page, bundle).Untouched?
    ensures Passes(page, bundle, times) == Some(page)
  {}

  lemma TimesCons(first: string, rest: seq<string>, name: string)
    ensures Times([first] + rest, name) == Times(rest, name) + if name == first then 1 else 0
  {}

  /** Pages after passing each as often as it is listed, and whether the bundle is referenced. */
  ghost predicate PassedAll(
    pages: map<string, Page>, names: seq<string>, bundle: Bundle, referenced: bool, after: map<string, Page>, r: bool)
    requires bundle.sources != []
  {
    && after.Keys == pages.Keys
    && (forall name :: name in pages ==> Some(after[name]) == Passes(pages[name], bundle, Times(names, name)))
    && (r <==> referenced || exists name :: name in names && name in pages && HasSplitTag(pages[name], bundle))
  }

  ghost predicate PassesAll(pages: map<string, Page>, names: seq<string>, bundle: Bundle)
    requires bundle.sources != []
  {
    forall name :: name in pages ==> Passes(pages[name], bundle, Times(names, name)).Some?
  }

  lemma RefusedPage(pages: map<string, Page>, first: string, rest: seq<string>, bundle: Bundle)
    requires bundle.sources != [] && first in pages && CollapsePage(pages[first], bundle).Incomplete?
    ensures !PassesAll(pages, [first] + rest, bundle)
  {
    hide CollapsePage, Times;
    TimesCons(first, rest, first);
    assert Passes(pages[first], bundle, Times([first] + rest, first)).None?;
  }

  lemma SkippedPage(
    pages: map<string, Page>, first: string, rest: seq<string>, bundle: Bundle, referenced: bool,
    after: map<string, Page>, r: bool)
    requires bundle.sources != [] && (first in pages ==> CollapsePage(pages[first], bundle).Untouched?)
    ensures PassesAll(pages, [first] + rest, bundle) <==> PassesAll(pages, rest, bundle)
    ensures PassedAll(pages, rest, bundle, referenced, after, r) ==>
              PassedAll(pages, [first] + rest, bundle, referenced, after, r)
  {
    hide CollapsePage, Times, HasSplitTag;
    forall name | name in pages
      ensures Passes(pages[name], bundle, Times([first] + rest, name)) == Passes(pages[name], bundle, Times(rest, name))
    {
      TimesCons(first, rest, name);
      if name == first {
        StaysUntouched(pages[name], bundle, Times([first] + rest, name));
        StaysUntouched(pages[name], bundle, Times(rest, name));
      }
    }
    if first in pages {
      UntouchedShowsNone(pages[first], bundle);
    }
    assert forall name :: name in [first] + rest <==> name == first || name in rest;
  }

  lemma UntouchedShowsNone(page: Page, bundle: Bundle)
    requires bundle.sources != []
    ensures CollapsePage(page, bundle).Untouched? <==> !HasSplitTag(page, bundle)
  {}

  lemma RewrittenPage(
    pages: map<string, Page>, first: string, rest: seq<string>, bundle: Bundle, referenced: bool,
    after: map<string, Page>, r: bool)
    requires bundle.sources != [] && first in pages && CollapsePage(pages[first], bundle).Rewritten?
    ensures var next := pages[first := CollapsePage(pages[first], bundle).page];
            && (PassesAll(pages, [first] + rest, bundle) <==> PassesAll(next, rest, bundle))
            && (PassedAll(next, rest, bundle, true, after, r) ==> PassedAll(pages, [first] + rest, bundle, referenced, after, r))
  {
    hide CollapsePage, Times, HasSplitTag;
    var next := pages[first := CollapsePage(pages[first], bundle).page];
    forall name | name in pages
      ensures Passes(pages[name], bundle, Times([first] + rest, name)) == Passes(next[name], bundle, Times(rest, name))
    {
      TimesCons(first, rest, name);
    }
    UntouchedShowsNone(pages[first], bundle);
    assert first in [first] + rest;
    assert next.Keys == pages.Keys;
  }

  /** Every page is passed as often as it is listed; the bundle is referenced when a listed page shows split sources. */
  lemma {:induction false} PagesExactly(pages: map<string, Page>, names: seq<string>, bundle: Bundle, referenced: bool)
    requires bundle.sources != []
    ensures var r := CollapsePages(pages, names, bundle, referenced);
            && (r.Some? <==> PassesAll(pages, names, bundle))
            && (r.Some? ==> PassedAll(pages, names, bundle, referenced, r.value.0, r.value.1))
    decreases |names|
  {
    hide CollapsePage, HasSplitTag, Times, PassesAll, PassedAll;
    if names == [] {
      NoneListed(pages, bundle, referenced);
    } else {
      var first, rest := names[0], names[1..];
      assert names == [first] + rest;
      if first in pages && CollapsePage(pages[first], bundle).Incomplete? {
        RefusedPage(pages, first, rest, bundle);
      } else if first in pages && CollapsePage(pages[first], bundle).Rewritten? {
        var next := pages[first := CollapsePage(pages[first], bundle).page];
        PagesExactly(next, rest, bundle, true);
        var r := CollapsePages(next, rest, bundle, true);
        if r.Some? {
          RewrittenPage(pages, first, rest, bundle, referenced, r.value.0, r.value.1);
        } else {
          RewrittenPage(pages, first, rest, bundle, referenced, pages, true);
        }
      } else {
        PagesExactly(pages, rest, bundle, referenced);
        var r := CollapsePages(pages, rest, bundle, referenced);
        if r.Some? {
          SkippedPage(pages, first, rest, bundle, referenced, r.value.0, r.value.1);
        } else {
          SkippedPage(pages, first, rest, bundle, referenced, pages, true);
        }
      }
    }
  }

  lemma NoneListed(pages: map<string, Page>, bundle: Bundle, referenced: bool)
    requires bundle.sources != []
    ensures PassesAll(pages, [], bundle) && PassedAll(pages, [], bundle, referenced, pages, referenced)
  {
    hide HasSplitTag;
    assert forall name :: Times([], name) == 0;
  }

  // ------------------------------------------------------------ a whole bundle

  /** A listed page shows split sources. */
  ghost predicate Referenced(build: Build, bundle: Bundle) {
    exists name :: name in bundle.pages && name in build.pages && ShowsSplit(build.pages[name], bundle)
  }

  ghost predicate SourcesUsable(build: Build, bundle: Bundle) {
    && (forall k :: 0 <= k < |bundle.sources| ==> bundle.sources[k] in build.files)
    && (forall i, j :: 0 <= i < j < |bundle.sources| && bundle.sources[i] == bundle.sources[j] ==>
        bundle.sources[i] == bundle.output)
  }

  /** The output holds the terminated sources one behind the other; of the sources nothing else is left. */
  ghost predicate FilesBundled(before: map<Path, string>, bundle: Bundle, after: map<Path, string>)
    requires forall s :: s in bundle.sources ==> s in before
  {
    && bundle.output in after && after[bundle.output] == Joined(bundle.sources, before)
    && (forall path :: path != bundle.output ==> (path in after <==> path in before && path !in bundle.sources))
    && (forall path :: path != bundle.output && path in after ==> after[path] == before[path])
  }

  /**
   Bundling stops exactly when a page that is listed is refused, or when split
   sources are shown and one of them is missing or cannot be removed twice.
   Otherwise every page is passed as often as it is listed and, if split
   sources are shown, the files are bundled.
   */
  lemma BundlesExactly(build: Build, bundle: Bundle)
    requires WellFormed(bundle)
    ensures var r := ApplyBundle(build, bundle);
            && (r.Some? <==> PassesAll(build.pages, bundle.pages, bundle)
                             && (Referenced(build, bundle) ==> SourcesUsable(build, bundle)))
            && (r.Some? ==>
                var (next, referenced) := r.value;
                && (referenced <==> Referenced(build, bundle))
                && next.pages.Keys == build.pages.Keys
                && (forall name :: name in build.pages ==>
                    Some(next.pages[name]) == Passes(build.pages[name], bundle, Times(bundle.pages, name)))
                && if referenced
                   then (forall s :: s in bundle.sources ==> s in build.files) && FilesBundled(build.files, bundle, next.files)
                   else next.files == build.files)
  {
    hide CollapsePages, HasSplitTag, ShowsSplit, Passes, Times, Joined, PlainPath, FilesOf;
    PagesExactly(build.pages, bundle.pages, bundle, false);
    forall name | name in build.pages
      ensures HasSplitTag(build.pages[name], bundle) <==> ShowsSplit(build.pages[name], bundle)
    {
      SplitExactly(build.pages[name], bundle);
    }
    NothingRewritten(build.pages, bundle.pages, bundle);
  }

  // ------------------------------------------------------------ what a bundled page loads

  /** One line loads the output, and no other names a file of the bundle. */
  ghost predicate LoadsOutput(page: Page, bundle: Bundle, at: nat) {
    && at < |page| && Loads(page[at]) == Some(Asset(bundle.assetType, bundle.output))
    && forall i :: 0 <= i < |page| && i != at ==> !NamesFile(page[i], bundle)
  }

  ghost predicate LoadsOutputOnce(page: Page, bundle: Bundle) {
    exists at :: LoadsOutput(page, bundle, at)
  }

  /** A page that is listed and carries the split tags of a bundle once is one of those that reference it. */
  ghost predicate Carries(name: string, page: Page, bundle: Bundle) {
    name in bundle.pages && CarriesOnce(page, bundle) && bundle.sources != [bundle.output]
  }

  lemma SplitIsCounted(bundle: Bundle)
    requires bundle.sources != [] && bundle.sources != [bundle.output]
    ensures SplitCount(bundle) > 0
  {}

  /** After one bundle such a page loads the output in place of the sources, and the files are bundled. */
  lemma OutputIsLoaded(build: Build, bundle: Bundle, name: string)
    requires WellFormed(bundle) && name in build.pages && Carries(name, build.pages[name], bundle)
    requires ApplyBundle(build, bundle).Some?
    ensures var next := ApplyBundle(build, bundle).value.0;
            && name in next.pages && LoadsOutputOnce(next.pages[name], bundle)
            && (forall s :: s in bundle.sources ==> s in build.files) && FilesBundled(build.files, bundle, next.files)
  {
    hide Loads, PlainPath, FilesOf, ApplyBundle, CarriesAt, Replaced, FilesBundled, ShowsSplit, CollapsePages, CollapsePage,
         PassesAll, Passes, SourcesUsable, Joined, NamesFile;
    var page := build.pages[name];
    var start :| CarriesAt(page, bundle, start);
    SplitIsCounted(bundle);
    BundlesExactly(build, bundle);
    CarriedShows(page, bundle, start);
    CarriedIsReplaced(build, bundle, name, start);
    ReplacedLoads(page, bundle, start);
  }

  lemma CarriedShows(page: Page, bundle: Bundle, start: nat)
    requires WellFormed(bundle) && SplitCount(bundle) > 0 && CarriesAt(page, bundle, start)
    ensures ShowsSplit(page, bundle)
  {
    hide Loads, PlainPath, FilesOf, NamesFile;
    assert Loads(page[start + 0]) == Some(SourceAsset(bundle, 0));
    assert LoadsSource(page[start], bundle, 0);
  }

  lemma CarriedIsReplaced(build: Build, bundle: Bundle, name: string, start: nat)
    requires WellFormed(bundle) && SplitCount(bundle) > 0 && name in build.pages && name in bundle.pages
    requires CarriesAt(build.pages[name], bundle, start) && ApplyBundle(build, bundle).Some?
    ensures var next := ApplyBundle(build, bundle).value.0;
            name in next.pages && next.pages[name] == Replaced(build.pages[name], bundle, start)
  {
    hide Loads, PlainPath, FilesOf, CarriesAt, Replaced, CollapsePages, CollapsePage, Joined, RemovedTwice, BundledFiles;
    BlockIsCollapsed(build.pages[name], bundle, start);
    CollapsedStays(build.pages[name], bundle, start);
    IsRewritten(build.pages, bundle.pages, bundle, false, name);
  }

  lemma ReplacedLoads(page: Page, bundle: Bundle, start: nat)
    requires WellFormed(bundle) && CarriesAt(page, bundle, start)
    ensures LoadsOutput(Replaced(page, bundle, start), bundle, start)
  {
    hide Loads, PlainPath, FilesOf, NamesFile, Replaced, ReplacementLine;
    var p := Replaced(page, bundle, start);
    ReplacedLength(page, bundle, start);
    forall i | 0 <= i < |p|
      ensures if i == start then Loads(p[i]) == Some(Asset(bundle.assetType, bundle.output)) else !NamesFile(p[i], bundle)
    {
      OnlyReplacementNames(page, bundle, start, i);
    }
  }

  // ------------------------------------------------------------ all bundles

  ghost predicate SameFilesOf(bundle: Bundle, before: map<Path, string>, after: map<Path, string>) {
    forall path :: path in FilesOf(bundle) ==>
      (path in before <==> path in after) && (path in before ==> after[path] == before[path])
  }

  lemma OtherFilesStay(build: Build, other: Bundle, bundle: Bundle)
    requires WellFormed(other) && FilesOf(other) !! FilesOf(bundle) && ApplyBundle(build, other).Some?
    ensures SameFilesOf(bundle, build.files, ApplyBundle(build, other).value.0.files)
  {
    hide ApplyBundle, ShowsSplit, PassesAll, Passes, SourcesUsable, Joined, PlainPath;
    BundlesExactly(build, other);
  }

  lemma {:induction false} JoinedFrame(sources: seq<Path>, before: map<Path, string>, after: map<Path, string>)
    requires forall s :: s in sources ==> s in before && s in after && after[s] == before[s]
    ensures Joined(sources, after) == Joined(sources, before)
  {
    hide Terminated;
    if sources != [] {
      assert sources[0] in sources;
      JoinedFrame(sources[1..], before, after);
    }
  }

  /** Another bundle neither breaks up a block nor touches the line of an output. */
  lemma OtherPagesStay(build: Build, other: Bundle, bundle: Bundle, name: string)
    requires WellFormed(other) && WellFormed(bundle) && FilesOf(other) !! FilesOf(bundle)
    requires name in build.pages && Fits(name, build.pages[name], other) && ApplyBundle(build, other).Some?
    ensures var next := ApplyBundle(build, other).value.0;
            && name in next.pages
            && (CarriesOnce(build.pages[name], bundle) ==> CarriesOnce(next.pages[name], bundle))
            && (LoadsOutputOnce(build.pages[name], bundle) ==> LoadsOutputOnce(next.pages[name], bundle))
  {
    hide Loads, PlainPath, FilesOf, NamesFile, Replaced, CarriesAt, NamesNone, ApplyBundle, BundledFiles, LoadsOutput, Joined;
    var s := PageAfter(build, other, name);
    var page, next := build.pages[name], ApplyBundle(build, other).value.0;
    if next.pages[name] != page {
      if CarriesOnce(page, bundle) {
        var t :| CarriesAt(page, bundle, t);
        ReplacedCarries(page, other, s, bundle, t);
      }
      if LoadsOutputOnce(page, bundle) {
        var at :| LoadsOutput(page, bundle, at);
        OutputIsKept(page, other, s, bundle, at);
      }
    }
  }

  lemma OutputIsKept(page: Page, other: Bundle, s: nat, bundle: Bundle, at: nat)
    requires WellFormed(other) && WellFormed(bundle) && FilesOf(other) !! FilesOf(bundle)
    requires CarriesAt(page, other, s) && LoadsOutput(page, bundle, at)
    ensures LoadsOutputOnce(Replaced(page, other, s), bundle)
  {
    hide Loads, PlainPath, FilesOf, NamesFile, Replaced;
    var n, p := |other.sources|, Replaced(page, other, s);
    PlainSources(other);
    PlainSources(bundle);
    ReplacedLength(page, other, s);
    assert InBlock(at, s, n) ==> Loads(page[s + (at - s)]) == Some(SourceAsset(other, at - s));
    var at': nat := if at < s then at else at - n + 1;
    forall i | 0 <= i < |p|
      ensures if i == at' then Loads(p[i]) == Some(Asset(bundle.assetType, bundle.output)) else !NamesFile(p[i], bundle)
    {
      ReplacedLine(page, other, s, bundle, i);
    }
    assert LoadsOutput(p, bundle, at');
  }

  /** The page loads the output of the bundle, which holds its sources; no other source is left. */
  ghost predicate Bundled(build: Build, built: Build, bundle: Bundle, name: string) {
    && name in built.pages && LoadsOutputOnce(built.pages[name], bundle)
    && (forall s :: s in bundle.sources ==> s in build.files)
    && bundle.output in built.files && built.files[bundle.output] == Joined(bundle.sources, build.files)
    && (forall s :: s in bundle.sources && s != bundle.output ==> s !in built.files)
  }

  lemma BundledThen(before: Build, build: Build, next: Build, bundle: Bundle, name: string)
    requires Bundled(build, next, bundle, name) && SameFilesOf(bundle, before.files, build.files)
    ensures Bundled(before, next, bundle, name)
  {
    hide LoadsOutputOnce, Joined;
    JoinedFrame(bundle.sources, before.files, build.files);
  }

  lemma ThenBundled(build: Build, built: Build, after: Build, bundle: Bundle, name: string)
    requires Bundled(build, built, bundle, name) && SameFilesOf(bundle, built.files, after.files)
    requires name in after.pages && LoadsOutputOnce(after.pages[name], bundle)
    ensures Bundled(build, after, bundle, name)
  {
    hide LoadsOutputOnce, Joined;
  }

  lemma {:induction false} LaterBundlesKeep(build: Build, bundles: seq<Bundle>, bundle: Bundle, name: string)
    requires AllWellFormed(bundles) && Disjoint(bundles) && WellFormed(bundle)
    requires forall other :: other in bundles ==> FilesOf(other) !! FilesOf(bundle)
    requires name in build.pages && FitsAll(name, build.pages[name], bundles)
    requires LoadsOutputOnce(build.pages[name], bundle) && ApplyBundles(build, bundles).Some?
    ensures var built := ApplyBundles(build, bundles).value;
            && name in built.pages && LoadsOutputOnce(built.pages[name], bundle)
            && SameFilesOf(bundle, build.files, built.files)
    decreases |bundles|
  {
    hide FilesOf, Fits, ApplyBundle, LoadsOutputOnce, PlainPath;
    if bundles != [] {
      var first, rest := bundles[0], bundles[1..];
      assert first in bundles;
      var next := ApplyBundle(build, first).value.0;
      OtherPagesStay(build, first, bundle, name);
      OtherFilesStay(build, first, bundle);
      RestFits(build, bundles, name);
      LaterBundlesKeep(next, rest, bundle, name);
    }
  }

  lemma RestFits(build: Build, bundles: seq<Bundle>, name: string)
    requires bundles != [] && AllWellFormed(bundles) && Disjoint(bundles)
    requires name in build.pages && FitsAll(name, build.pages[name], bundles)
    requires bundles[0].sources != [] && ApplyBundle(build, bundles[0]).Some?
    ensures AllWellFormed(bundles[1..]) && Disjoint(bundles[1..])
    ensures var next := ApplyBundle(build, bundles[0]).value.0;
            name in next.pages && FitsAll(name, next.pages[name], bundles[1..])
    ensures forall other :: other in bundles[1..] ==> FilesOf(bundles[0]) !! FilesOf(other)
  {
    hide FilesOf, Fits, ApplyBundle, PlainPath;
    var first, rest := bundles[0], bundles[1..];
    assert first in bundles && WellFormed(first) && Fits(name, build.pages[name], first);
    var next := ApplyBundle(build, first).value.0;
    forall other | other in rest
      ensures other in bundles && FilesOf(first) !! FilesOf(other)
      ensures name in next.pages && Fits(name, next.pages[name], other)
    {
      var j :| 0 <= j < |rest| && rest[j] == other;
      assert bundles[j + 1] == other && FilesOf(bundles[0]) !! FilesOf(bundles[j + 1]);
      StillFits(build, first, other, name);
    }
    OneBundleKeepsMeaning(build, first, name);
    assert forall i :: 0 <= i < |rest| ==> rest[i] == bundles[i + 1];
  }

  /**
   After all bundles, with pairwise disjoint files, every page that is listed
   and carries the split tags of a bundle once loads its output in their place,
   and the output holds the sources of the original build.
   */
  lemma {:induction false} PagesLoadOutputs(build: Build, bundles: seq<Bundle>, bundle: Bundle, name: string)
    requires AllWellFormed(bundles) && Disjoint(bundles) && bundle in bundles
    requires name in build.pages && FitsAll(name, build.pages[name], bundles) && Carries(name, build.pages[name], bundle)
    requires ApplyBundles(build, bundles).Some?
    ensures Bundled(build, ApplyBundles(build, bundles).value, bundle, name)
    decreases |bundles|
  {
    hide FilesOf, Fits, ApplyBundle, LoadsOutputOnce, PlainPath, CarriesOnce, Bundled, FilesBundled;
    var first, rest := bundles[0], bundles[1..];
    assert first in bundles && WellFormed(first) && WellFormed(bundle);
    assert Fits(name, build.pages[name], first);
    var next := ApplyBundle(build, first).value.0;
    RestFits(build, bundles, name);
    if first == bundle {
      OutputIsLoaded(build, bundle, name);
      assert forall other :: other in rest ==> FilesOf(other) !! FilesOf(bundle);
      LaterBundlesKeep(next, rest, bundle, name);
      BundledAtOnce(build, next, bundle, name);
      ThenBundled(build, next, ApplyBundles(build, bundles).value, bundle, name);
    } else {
      assert bundle in rest;
      OtherPagesStay(build, first, bundle, name);
      OtherFilesStay(build, first, bundle);
      PagesLoadOutputs(next, rest, bundle, name);
      BundledThen(build, next, ApplyBundles(build, bundles).value, bundle, name);
    }
  }

  lemma BundledAtOnce(build: Build, next: Build, bundle: Bundle, name: string)
    requires name in next.pages && LoadsOutputOnce(next.pages[name], bundle)
    requires (forall s :: s in bundle.sources ==> s in build.files) && FilesBundled(build.files, bundle, next.files)
    ensures Bundled(build, next, bundle, name)
  {
    hide LoadsOutputOnce, Joined;
  }
}
