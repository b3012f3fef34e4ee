/** Bundling changes neither what a page loads nor in which order. */
module CacheBusterProofs {
  import opened JsStrings
  import opened CacheBuster

  // ------------------------------------------------------------ tags and the assets they load

  predicate PlainPath(path: Path) {
    '"' !in path
  }

  lemma BetweenIs(start: string, path: string, end: string)
    requires '"' !in path
    ensures Between(start + (path + end), start, end) == Some(path)
  {
    var text := start + (path + end);
    assert text[|text| - |end|..] == end;
    assert text[|start|..|text| - |end|] == path;
  }

  lemma BetweenGives(text: string, start: string, end: string)
    requires Between(text, start, end).Some?
    ensures text == start + (Between(text, start, end).value + end)
  {
    var path := Between(text, start, end).value;
    assert text == text[..|start|] + (path + text[|text| - |end|..]);
  }

  lemma StartsDiffer(text: string)
    ensures Between(text, SCRIPT_START, SCRIPT_END).Some? ==> Between(text, STYLE_START, STYLE_END).None?
  {
    assert SCRIPT_START <= text ==> |text| > 1 && text[1] == 's';
    assert STYLE_START <= text ==> |text| > 1 && text[1] == 'l';
  }

  /** A line is the tag of an asset exactly when it loads that asset. */
  lemma TagLoads(line: Line, asset: Asset)
    requires PlainPath(asset.path)
    ensures IsTag(line, asset) <==> Loads(line) == Some(asset)
  {
    hide Between, SCRIPT_START, SCRIPT_END, STYLE_START, STYLE_END;
    StartsDiffer(line.text);
    BetweenIs(TagStart(asset.assetType), asset.path, TagEnd(asset.assetType));
    if Between(line.text, SCRIPT_START, SCRIPT_END).Some? {
      BetweenGives(line.text, SCRIPT_START, SCRIPT_END);
    }
    if Between(line.text, STYLE_START, STYLE_END).Some? {
      BetweenGives(line.text, STYLE_START, STYLE_END);
    }
  }

  // ------------------------------------------------------------ what a page means

  /** What a browser sees of a page: its markup line by line, and the loaded code character by character. */
  datatype Token = Markup(line: Line) | Code(assetType: AssetType, c: char) | Absent(asset: Asset)

  function CodeTokens(assetType: AssetType, text: string): (r: seq<Token>)
    ensures |r| == |text|
  {
    seq(|text|, i requires 0 <= i < |text| => Code(assetType, text[i]))
  }

  function LineMeaning(line: Line, files: map<Path, string>): seq<Token> {
    match Loads(line)
    case None => [Markup(line)]
    case Some(asset) =>
      if asset.path in files then CodeTokens(asset.assetType, Terminated(files[asset.path])) else [Absent(asset)]
  }

  function Meaning(page: Page, files: map<Path, string>): seq<Token> {
    if page == [] then [] else LineMeaning(page[0], files) + Meaning(page[1..], files)
  }

  // ------------------------------------------------------------ which files a page names

  function FilesOf(bundle: Bundle): set<Path> {
    (set s | s in bundle.sources) + {bundle.output}
  }

  predicate NamesFile(line: Line, bundle: Bundle) {
    Loads(line).Some? && Loads(line).value.path in FilesOf(bundle)
  }

  /** A bundle with at least one source, and no path that would end its own tag. */
  ghost predicate WellFormed(bundle: Bundle) {
    bundle.sources != [] && forall path :: path in FilesOf(bundle) ==> PlainPath(path)
  }

  ghost predicate NamesNone(page: Page, bundle: Bundle) {
    forall i :: 0 <= i < |page| ==> !NamesFile(page[i], bundle)
  }

  predicate InBlock(i: int, start: int, length: int) {
    start <= i < start + length
  }

  /** All sources are loaded at `start`, in their order, and nothing else names a file of the bundle. */
  ghost predicate CarriesAt(page: Page, bundle: Bundle, start: nat) {
    && start + |bundle.sources| <= |page|
    && (forall k :: 0 <= k < |bundle.sources| ==> Loads(page[start + k]) == Some(SourceAsset(bundle, k)))
    && (forall i :: 0 <= i < |page| && !InBlock(i, start, |bundle.sources|) ==> !NamesFile(page[i], bundle))
  }

  ghost predicate CarriesOnce(page: Page, bundle: Bundle) {
    exists start :: CarriesAt(page, bundle, start)
  }

  /** The page either has nothing to do with the bundle, or is listed and carries its split tags once. */
  ghost predicate Fits(name: string, page: Page, bundle: Bundle) {
    NamesNone(page, bundle) || (name in bundle.pages && CarriesOnce(page, bundle))
  }

  // ------------------------------------------------------------ meaning, piece by piece

  lemma {:induction false} MeaningConcat(a: Page, b: Page, files: map<Path, string>)
    ensures Meaning(a + b, files) == Meaning(a, files) + Meaning(b, files)
    decreases |a|
  {
    hide LineMeaning;
    if a == [] {
      assert a + b == b;
    } else {
      assert (a + b)[1..] == a[1..] + b;
      MeaningConcat(a[1..], b, files);
    }
  }

  lemma {:induction false} MeaningFrame(page: Page, bundle: Bundle, files: map<Path, string>, files': map<Path, string>)
    requires NamesNone(page, bundle)
    requires forall path :: path !in FilesOf(bundle) ==> (path in files <==> path in files')
    requires forall path :: path !in FilesOf(bundle) && path in files ==> files'[path] == files[path]
    ensures Meaning(page, files') == Meaning(page, files)
    decreases |page|
  {
    hide Loads, FilesOf;
    if page != [] {
      assert !NamesFile(page[0], bundle);
      MeaningFrame(page[1..], bundle, files, files');
    }
  }

  lemma CodeConcat(assetType: AssetType, a: string, b: string)
    ensures CodeTokens(assetType, a + b) == CodeTokens(assetType, a) + CodeTokens(assetType, b)
  {}

  /** Lines that load the sources in order mean the joined text. */
  lemma {:induction false} BlockMeaning(lines: Page, assetType: AssetType, sources: seq<Path>, files: map<Path, string>)
    requires |lines| == |sources| && forall s :: s in sources ==> s in files
    requires forall k :: 0 <= k < |sources| ==> Loads(lines[k]) == Some(Asset(assetType, sources[k]))
    ensures Meaning(lines, files) == CodeTokens(assetType, Joined(sources, files))
    decreases |lines|
  {
    hide Loads, CodeTokens, Terminated;
    if lines == [] {
      assert CodeTokens(assetType, []) == [];
    } else {
      assert sources[0] in sources;
      assert Loads(lines[0]) == Some(Asset(assetType, sources[0]));
      BlockMeaning(lines[1..], assetType, sources[1..], files);
      CodeConcat(assetType, Terminated(files[sources[0]]), Joined(sources[1..], files));
    }
  }

  lemma {:induction false} JoinedIsTerminated(sources: seq<Path>, files: map<Path, string>)
    requires sources != [] && forall s :: s in sources ==> s in files
    ensures Terminated(Joined(sources, files)) == Joined(sources, files)
    decreases |sources|
  {
    if |sources| > 1 {
      JoinedIsTerminated(sources[1..], files);
      var rest := Joined(sources[1..], files);
      assert rest != [] by { assert Terminated(rest) == rest; }
      var all := Joined(sources, files);
      assert all[|all| - 1] == rest[|rest| - 1];
    } else {
      assert Joined(sources[1..], files) == [];
      assert Joined(sources, files) == Terminated(files[sources[0]]);
    }
  }

  // ------------------------------------------------------------ one page and one bundle

  lemma PlainSources(bundle: Bundle)
    requires WellFormed(bundle)
    ensures forall k :: 0 <= k < |bundle.sources| ==> PlainPath(bundle.sources[k]) && bundle.sources[k] in FilesOf(bundle)
    ensures PlainPath(bundle.output) && bundle.output in FilesOf(bundle)
  {
    hide PlainPath;
  }

  lemma NothingToCollapse(page: Page, bundle: Bundle)
    requires WellFormed(bundle) && NamesNone(page, bundle)
    ensures CollapsePage(page, bundle) == Untouched
  {
    hide Loads, IsTag, FilesOf, PlainPath;
    PlainSources(bundle);
    forall i, k | 0 <= i < |page| && 0 <= k < |bundle.sources|
      ensures !IsTag(page[i], SourceAsset(bundle, k))
    {
      TagLoads(page[i], SourceAsset(bundle, k));
      assert !NamesFile(page[i], bundle);
    }
  }

  /** The page with its block of split tags replaced by the tag of the bundle. */
  function Replaced(page: Page, bundle: Bundle, start: nat): Page
    requires bundle.sources != [] && start + |bundle.sources| <= |page|
  {
    page[..start] + [ReplacementLine(page[start], bundle)] + page[start + |bundle.sources|..]
  }

  lemma FirstTag(page: Page, bundle: Bundle, start: nat)
    requires WellFormed(bundle) && CarriesAt(page, bundle, start)
    ensures IndexOfTag(page, SourceAsset(bundle, 0)) == start && TagsAt(page, bundle, start)
  {
    hide Loads, IsTag, FilesOf, PlainPath, IndexOfTag;
    PlainSources(bundle);
    forall k | 0 <= k < |bundle.sources|
      ensures IsTag(page[start + k], SourceAsset(bundle, k))
    {
      TagLoads(page[start + k], SourceAsset(bundle, k));
    }
    assert IsTag(page[start + 0], SourceAsset(bundle, 0));
    forall j | 0 <= j < start
      ensures !IsTag(page[j], SourceAsset(bundle, 0))
    {
      TagLoads(page[j], SourceAsset(bundle, 0));
      assert !InBlock(j, start, |bundle.sources|);
      assert !NamesFile(page[j], bundle);
    }
  }

  lemma BlockIsCollapsed(page: Page, bundle: Bundle, start: nat)
    requires WellFormed(bundle) && CarriesAt(page, bundle, start) && SplitCount(bundle) > 0
    ensures CollapsePage(page, bundle) == Rewritten(Replaced(page, bundle, start))
  {
    hide Loads, IsTag, FilesOf, PlainPath, IndexOfTag;
    FirstTag(page, bundle, start);
    assert IsTag(page[start + 0], SourceAsset(bundle, 0));
    assert IsSplitTag(page[start], bundle);
  }

  lemma FilesOutside(files: map<Path, string>, bundle: Bundle)
    requires forall s :: s in bundle.sources ==> s in files
    ensures var files' := BundledFiles(files, bundle);
            && (forall path :: path !in FilesOf(bundle) ==> (path in files <==> path in files'))
            && (forall path :: path !in FilesOf(bundle) && path in files ==> files'[path] == files[path])
            && bundle.output in files' && files'[bundle.output] == Joined(bundle.sources, files)
  {
    hide Joined;
  }

  /** The rewritten page loads from the bundled files what the page loaded from the split ones. */
  lemma BundledMeansTheSame(page: Page, bundle: Bundle, start: nat, files: map<Path, string>)
    requires WellFormed(bundle) && CarriesAt(page, bundle, start) && forall s :: s in bundle.sources ==> s in files
    ensures Meaning(Replaced(page, bundle, start), BundledFiles(files, bundle)) == Meaning(page, files)
  {
    hide Loads, FilesOf, PlainPath, BundledFiles, Joined, CodeTokens, Terminated, Meaning;
    var n := |bundle.sources|;
    var front, block, back := page[..start], page[start..start + n], page[start + n..];
    var line := ReplacementLine(page[start], bundle);
    var files' := BundledFiles(files, bundle);
    assert page == front + block + back;
    FilesOutside(files, bundle);
    OutsideNamesNone(page, bundle, start);
    MeaningFrame(front, bundle, files, files');
    MeaningFrame(back, bundle, files, files');
    assert forall k :: 0 <= k < n ==>
             block[k] == page[start + k] && SourceAsset(bundle, k) == Asset(bundle.assetType, bundle.sources[k]);
    BlockMeaning(block, bundle.assetType, bundle.sources, files);
    ReplacementMeaning(line, page[start], bundle, files);
    MeaningConcat(front, block, files);
    MeaningConcat(front + block, back, files);
    MeaningConcat(front, [line], files');
    MeaningConcat(front + [line], back, files');
  }

  lemma OutsideNamesNone(page: Page, bundle: Bundle, start: nat)
    requires CarriesAt(page, bundle, start)
    ensures NamesNone(page[..start], bundle) && NamesNone(page[start + |bundle.sources|..], bundle)
  {
    hide NamesFile;
    assert forall i :: 0 <= i < start ==> !InBlock(i, start, |bundle.sources|);
    assert forall i :: start + |bundle.sources| <= i ==> !InBlock(i, start, |bundle.sources|);
  }

  lemma ReplacementMeaning(line: Line, original: Line, bundle: Bundle, files: map<Path, string>)
    requires WellFormed(bundle) && line == ReplacementLine(original, bundle)
    requires forall s :: s in bundle.sources ==> s in files
    ensures Loads(line) == Some(Asset(bundle.assetType, bundle.output))
    ensures Meaning([line], BundledFiles(files, bundle)) == CodeTokens(bundle.assetType, Joined(bundle.sources, files))
  {
    hide Loads, FilesOf, PlainPath, BundledFiles, Joined, CodeTokens, Terminated;
    PlainSources(bundle);
    var asset := Asset(bundle.assetType, bundle.output);
    TagLoads(line, asset);
    FilesOutside(files, bundle);
    JoinedIsTerminated(bundle.sources, files);
    assert [line][1..] == [];
  }

  // ------------------------------------------------------------ all pages and one bundle

  lemma InReplaced(page: Page, bundle: Bundle, start: nat, i: nat)
    requires WellFormed(bundle) && CarriesAt(page, bundle, start) && i < |Replaced(page, bundle, start)|
    ensures var p := Replaced(page, bundle, start);
            && (i < start ==> p[i] == page[i])
            && (i == start ==> p[i] == ReplacementLine(page[start], bundle))
            && (i > start ==> i + |bundle.sources| - 1 < |page| && p[i] == page[i + |bundle.sources| - 1])
  {
    hide Loads, FilesOf, PlainPath;
  }

  /** In the rewritten page only the new tag names a file of the bundle. */
  lemma OnlyReplacementNames(page: Page, bundle: Bundle, start: nat, i: nat)
    requires WellFormed(bundle) && CarriesAt(page, bundle, start) && i < |Replaced(page, bundle, start)|
    ensures var p := Replaced(page, bundle, start);
            if i == start then Loads(p[i]) == Some(Asset(bundle.assetType, bundle.output)) else !NamesFile(p[i], bundle)
  {
    hide Loads, FilesOf, PlainPath, ReplacementLine, NamesFile, Replaced;
    InReplaced(page, bundle, start, i);
    PlainSources(bundle);
    if i == start {
      ReplacementLoads(page[start], bundle);
    } else {
      assert !InBlock(i, start, |bundle.sources|) || i > start;
      assert i < start ==> !InBlock(i, start, |bundle.sources|);
      assert i > start ==> !InBlock(i + |bundle.sources| - 1, start, |bundle.sources|);
    }
  }

  lemma ReplacementLoads(line: Line, bundle: Bundle)
    requires WellFormed(bundle)
    ensures Loads(ReplacementLine(line, bundle)) == Some(Asset(bundle.assetType, bundle.output))
  {
    hide Loads, FilesOf, PlainPath;
    PlainSources(bundle);
    TagLoads(ReplacementLine(line, bundle), Asset(bundle.assetType, bundle.output));
  }

  /** A rewritten page is not rewritten again. */
  lemma CollapsedStays(page: Page, bundle: Bundle, start: nat)
    requires WellFormed(bundle) && CarriesAt(page, bundle, start)
    ensures !CollapsePage(Replaced(page, bundle, start), bundle).Rewritten?
  {
    hide Loads, IsTag, FilesOf, PlainPath, IndexOfTag, Replaced, ReplacementLine;
    var p := Replaced(page, bundle, start);
    PlainSources(bundle);
    forall i, k | 0 <= i < |p| && 0 <= k < |bundle.sources| && IsTag(p[i], SourceAsset(bundle, k))
      ensures i == start && bundle.sources[k] == bundle.output
    {
      OnlyReplacementNames(page, bundle, start, i);
      TagLoads(p[i], SourceAsset(bundle, k));
    }
    NotAgain(p, bundle, start);
  }

  lemma FirstTwoTags(page: Page, bundle: Bundle, start: nat)
    requires |bundle.sources| > 1 && TagsAt(page, bundle, start)
    ensures start + 1 < |page|
    ensures IsTag(page[start], SourceAsset(bundle, 0)) && IsTag(page[start + 1], SourceAsset(bundle, 1))
  {
    hide IsTag;
    assert page[start + 0] == page[start];
  }

  lemma NotAgain(page: Page, bundle: Bundle, start: nat)
    requires bundle.sources != []
    requires forall i, k :: 0 <= i < |page| && 0 <= k < |bundle.sources| && IsTag(page[i], SourceAsset(bundle, k)) ==>
               i == start && bundle.sources[k] == bundle.output
    ensures !CollapsePage(page, bundle).Rewritten?
  {
    hide IsTag, IndexOfTag;
    var n := |bundle.sources|;
    var at := IndexOfTag(page, SourceAsset(bundle, 0));
    assert at < |page| ==> IsTag(page[at], SourceAsset(bundle, 0));
    if n > 1 && TagsAt(page, bundle, at) {
      FirstTwoTags(page, bundle, at);
    }
    assert forall i, k :: 0 <= i < |page| && 0 <= k < SplitCount(bundle) && IsTag(page[i], SourceAsset(bundle, k)) ==>
        bundle.sources[k] == bundle.output;
  }

  lemma NoSplitTags(page: Page, bundle: Bundle)
    requires bundle.sources != [] && SplitCount(bundle) == 0
    ensures CollapsePage(page, bundle) == Untouched
  {}

  lemma {:induction false} StaysPut(
    pages: map<string, Page>, names: seq<string>, bundle: Bundle, referenced: bool, name: string)
    requires bundle.sources != [] && name in pages && !CollapsePage(pages[name], bundle).Rewritten?
    requires CollapsePages(pages, names, bundle, referenced).Some?
    ensures var after := CollapsePages(pages, names, bundle, referenced).value.0;
            name in after && after[name] == pages[name]
    decreases |names|
  {
    hide CollapsePage;
    if names != [] {
      if names[0] in pages && CollapsePage(pages[names[0]], bundle).Rewritten? {
        StaysPut(pages[names[0] := CollapsePage(pages[names[0]], bundle).page], names[1..], bundle, true, name);
      } else {
        StaysPut(pages, names[1..], bundle, referenced, name);
      }
    }
  }

  lemma {:induction false} IsRewritten(
    pages: map<string, Page>, names: seq<string>, bundle: Bundle, referenced: bool, name: string)
    requires bundle.sources != [] && name in pages && name in names
    requires CollapsePage(pages[name], bundle).Rewritten?
    requires !CollapsePage(CollapsePage(pages[name], bundle).page, bundle).Rewritten?
    requires CollapsePages(pages, names, bundle, referenced).Some?
    ensures var r := CollapsePages(pages, names, bundle, referenced).value;
            r.1 && name in r.0 && r.0[name] == CollapsePage(pages[name], bundle).page
    decreases |names|
  {
    hide CollapsePage;
    if names[0] == name {
      var next := pages[name := CollapsePage(pages[name], bundle).page];
      StaysPut(next, names[1..], bundle, true, name);
      CollapseMarksReferenced(next, names[1..], bundle);
    } else {
      assert name in names[1..];
      if names[0] in pages && CollapsePage(pages[names[0]], bundle).Rewritten? {
        IsRewritten(pages[names[0] := CollapsePage(pages[names[0]], bundle).page], names[1..], bundle, true, name);
      } else {
        IsRewritten(pages, names[1..], bundle, referenced, name);
      }
    }
  }

  lemma {:induction false} NothingToReference(pages: map<string, Page>, names: seq<string>, bundle: Bundle)
    requires bundle.sources != [] && SplitCount(bundle) == 0
    ensures CollapsePages(pages, names, bundle, false) == Some((pages, false))
    decreases |names|
  {
    hide CollapsePage, SplitCount;
    if names != [] {
      if names[0] in pages {
        NoSplitTags(pages[names[0]], bundle);
      }
      NothingToReference(pages, names[1..], bundle);
    }
  }

  /** The page after one bundle: as before, or with its block replaced. */
  lemma PageAfter(build: Build, bundle: Bundle, name: string) returns (start: nat)
    requires WellFormed(bundle) && name in build.pages && Fits(name, build.pages[name], bundle)
    requires ApplyBundle(build, bundle).Some?
    ensures var page, (next, referenced) := build.pages[name], ApplyBundle(build, bundle).value;
            && name in next.pages
            && (NamesNone(page, bundle) ==> next.pages[name] == page)
            && (!NamesNone(page, bundle) && next != build ==>
                CarriesAt(page, bundle, start) && next.pages[name] == Replaced(page, bundle, start))
            && (next == build
                || ((forall s :: s in bundle.sources ==> s in build.files)
                    && next.files == BundledFiles(build.files, bundle)))
  {
    hide Loads, IsTag, FilesOf, PlainPath, CollapsePage, Joined, Replaced, BundledFiles, CarriesAt,
         NamesNone, CollapsePages;
    var page := build.pages[name];
    start := 0;
    if NamesNone(page, bundle) {
      NothingToCollapse(page, bundle);
      StaysPut(build.pages, bundle.pages, bundle, false, name);
    } else if SplitCount(bundle) == 0 {
      NothingToReference(build.pages, bundle.pages, bundle);
    } else {
      start :| CarriesAt(page, bundle, start);
      BlockIsCollapsed(page, bundle, start);
      CollapsedStays(page, bundle, start);
      IsRewritten(build.pages, bundle.pages, bundle, false, name);
    }
  }

  /** One bundle keeps the meaning of every page that fits it. */
  lemma OneBundleKeepsMeaning(build: Build, bundle: Bundle, name: string)
    requires WellFormed(bundle) && name in build.pages && Fits(name, build.pages[name], bundle)
    requires ApplyBundle(build, bundle).Some?
    ensures var next := ApplyBundle(build, bundle).value.0;
            name in next.pages && Meaning(next.pages[name], next.files) == Meaning(build.pages[name], build.files)
  {
    hide Loads, IsTag, FilesOf, PlainPath, ApplyBundle, Joined, Replaced, BundledFiles, CarriesAt, NamesNone, Meaning, Fits;
    var start := PageAfter(build, bundle, name);
    var next := ApplyBundle(build, bundle).value.0;
    if next != build {
      FilesOutside(build.files, bundle);
      if NamesNone(build.pages[name], bundle) {
        MeaningFrame(build.pages[name], bundle, build.files, next.files);
      } else {
        BundledMeansTheSame(build.pages[name], bundle, start, build.files);
      }
    }
  }

  // ------------------------------------------------------------ all bundles

  lemma BlocksAreApart(page: Page, b: Bundle, s: nat, c: Bundle, t: nat)
    requires WellFormed(b) && WellFormed(c) && FilesOf(b) !! FilesOf(c)
    requires CarriesAt(page, b, s) && CarriesAt(page, c, t)
    ensures t + |c.sources| <= s || s + |b.sources| <= t
  {
    hide Loads, PlainPath, FilesOf;
    PlainSources(b);
    PlainSources(c);
    forall i
      ensures !(InBlock(i, s, |b.sources|) && InBlock(i, t, |c.sources|))
    {
      assert InBlock(i, s, |b.sources|) ==> Loads(page[s + (i - s)]) == Some(SourceAsset(b, i - s));
      assert InBlock(i, t, |c.sources|) ==> Loads(page[t + (i - t)]) == Some(SourceAsset(c, i - t));
    }
    assert !(InBlock(s, s, |b.sources|) && InBlock(s, t, |c.sources|));
    assert !(InBlock(t, s, |b.sources|) && InBlock(t, t, |c.sources|));
  }

  lemma OtherFileIsNotNamed(line: Line, b: Bundle, c: Bundle)
    requires FilesOf(b) !! FilesOf(c) && Loads(line).Some? && Loads(line).value.path in FilesOf(b)
    ensures !NamesFile(line, c)
  {}

  lemma ReplacedNamesNone(page: Page, b: Bundle, s: nat, c: Bundle)
    requires WellFormed(b) && FilesOf(b) !! FilesOf(c) && CarriesAt(page, b, s) && NamesNone(page, c)
    ensures NamesNone(Replaced(page, b, s), c)
  {
    hide Loads, PlainPath, FilesOf, NamesFile, Replaced, ReplacementLine;
    forall i | 0 <= i < |Replaced(page, b, s)|
      ensures !NamesFile(Replaced(page, b, s)[i], c)
    {
      ReplacedLine(page, b, s, c, i);
    }
  }

  lemma ReplacedLine(page: Page, b: Bundle, s: nat, c: Bundle, i: nat)
    requires WellFormed(b) && FilesOf(b) !! FilesOf(c) && CarriesAt(page, b, s) && i < |Replaced(page, b, s)|
    ensures i == s ==> !NamesFile(Replaced(page, b, s)[i], c)
    ensures i < s ==> Replaced(page, b, s)[i] == page[i]
    ensures i > s ==> i + |b.sources| - 1 < |page| && Replaced(page, b, s)[i] == page[i + |b.sources| - 1]
    ensures |Replaced(page, b, s)| == |page| - |b.sources| + 1
  {
    hide Loads, PlainPath, FilesOf, NamesFile, ReplacementLine;
    InReplaced(page, b, s, i);
    if i == s {
      ReplacementLoads(page[s], b);
      PlainSources(b);
      OtherFileIsNotNamed(ReplacementLine(page[s], b), b, c);
    }
  }

  lemma ReplacedCarries(page: Page, b: Bundle, s: nat, c: Bundle, t: nat)
    requires WellFormed(b) && WellFormed(c) && FilesOf(b) !! FilesOf(c)
    requires CarriesAt(page, b, s) && CarriesAt(page, c, t)
    ensures CarriesOnce(Replaced(page, b, s), c)
  {
    hide Loads, PlainPath, FilesOf, NamesFile, Replaced;
    BlocksAreApart(page, b, s, c, t);
    var n, p := |b.sources|, Replaced(page, b, s);
    var t': nat := if t < s then t else t - n + 1;
    ReplacedLine(page, b, s, c, s) by { assert |p| == |page| - n + 1 by { ReplacedLength(page, b, s); } }
    forall k | 0 <= k < |c.sources|
      ensures Loads(p[t' + k]) == Some(SourceAsset(c, k))
    {
      ReplacedLine(page, b, s, c, t' + k);
      assert Loads(page[t + k]) == Some(SourceAsset(c, k));
    }
    forall i | 0 <= i < |p| && !InBlock(i, t', |c.sources|)
      ensures !NamesFile(p[i], c)
    {
      ReplacedLine(page, b, s, c, i);
      var j := if i < s then i else i + n - 1;
      assert i != s ==> p[i] == page[j] && !InBlock(j, t, |c.sources|);
    }
    assert CarriesAt(p, c, t');
  }

  lemma ReplacedLength(page: Page, b: Bundle, s: nat)
    requires b.sources != [] && s + |b.sources| <= |page|
    ensures |Replaced(page, b, s)| == |page| - |b.sources| + 1
  {}

  /** Processing one bundle leaves a page as fit for the others as it was. */
  lemma StillFits(build: Build, b: Bundle, c: Bundle, name: string)
    requires WellFormed(b) && WellFormed(c) && FilesOf(b) !! FilesOf(c)
    requires name in build.pages && Fits(name, build.pages[name], b) && Fits(name, build.pages[name], c)
    requires ApplyBundle(build, b).Some?
    ensures var next := ApplyBundle(build, b).value.0; name in next.pages && Fits(name, next.pages[name], c)
  {
    hide Loads, PlainPath, FilesOf, NamesFile, Replaced, CarriesAt, NamesNone, ApplyBundle, BundledFiles;
    var s := PageAfter(build, b, name);
    var page, next := build.pages[name], ApplyBundle(build, b).value.0;
    if next.pages[name] != page {
      if NamesNone(page, c) {
        ReplacedNamesNone(page, b, s, c);
      } else {
        var t :| CarriesAt(page, c, t);
        ReplacedCarries(page, b, s, c, t);
      }
    }
  }

  ghost predicate AllWellFormed(bundles: seq<Bundle>) {
    forall b :: b in bundles ==> WellFormed(b)
  }

  ghost predicate Disjoint(bundles: seq<Bundle>) {
    forall i, j :: 0 <= i < j < |bundles| ==> FilesOf(bundles[i]) !! FilesOf(bundles[j])
  }

  ghost predicate FitsAll(name: string, page: Page, bundles: seq<Bundle>) {
    forall b :: b in bundles ==> Fits(name, page, b)
  }

  /**
   For bundles with pairwise disjoint files, every page that carries the split
   tags of each bundle once, or names none of its files, loads the same text in
   the same order after all bundles have been processed.
   */
  lemma {:induction false} BundlingKeepsMeaning(build: Build, bundles: seq<Bundle>, name: string)
    requires AllWellFormed(bundles) && Disjoint(bundles)
    requires name in build.pages && FitsAll(name, build.pages[name], bundles)
    requires ApplyBundles(build, bundles).Some?
    ensures var built := ApplyBundles(build, bundles).value;
            name in built.pages && Meaning(built.pages[name], built.files) == Meaning(build.pages[name], build.files)
    decreases |bundles|
  {
    hide PlainPath, FilesOf, Fits, ApplyBundle, Meaning;
    if bundles != [] {
      var b, rest := bundles[0], bundles[1..];
      assert b in bundles && WellFormed(b) && Fits(name, build.pages[name], b);
      assert forall c :: c in rest ==> c in bundles;
      OneBundleKeepsMeaning(build, b, name);
      var next := ApplyBundle(build, b).value.0;
      forall c | c in rest
        ensures Fits(name, next.pages[name], c)
      {
        var j :| 0 <= j < |rest| && rest[j] == c;
        assert bundles[j + 1] == c && FilesOf(bundles[0]) !! FilesOf(bundles[j + 1]);
        StillFits(build, b, c, name);
      }
      assert forall i :: 0 <= i < |rest| ==> rest[i] == bundles[i + 1];
      BundlingKeepsMeaning(next, rest, name);
    }
  }

  /** A page that names no file of any bundle is left as it is. */
  lemma {:induction false} UnrelatedPagesStay(build: Build, bundles: seq<Bundle>, name: string)
    requires AllWellFormed(bundles) && ApplyBundles(build, bundles).Some?
    requires name in build.pages && forall b :: b in bundles ==> NamesNone(build.pages[name], b)
    ensures var built := ApplyBundles(build, bundles).value;
            name in built.pages && built.pages[name] == build.pages[name]
    decreases |bundles|
  {
    hide PlainPath, FilesOf, NamesNone, ApplyBundle, CarriesOnce;
    if bundles != [] {
      var b, rest := bundles[0], bundles[1..];
      assert b in bundles && WellFormed(b) && NamesNone(build.pages[name], b);
      assert forall c :: c in rest ==> c in bundles;
      var start := PageAfter(build, b, name);
      UnrelatedPagesStay(ApplyBundle(build, b).value.0, rest, name);
    }
  }
}
