/** Bundling split frontend assets, as script/cache_buster.py does for a production build. */
module CacheBuster {
  import opened JsStrings

  type Path = string

  datatype AssetType = Script | Stylesheet

  datatype Asset = Asset(assetType: AssetType, path: Path)

  datatype Bundle = Bundle(output: Path, sources: seq<Path>, pages: seq<string>, assetType: AssetType)

  /** A line of a page: leading white space, text without white space around it, trailing white space with the line end. */
  datatype Line = Line(indent: string, text: string, end: string)

  type Page = seq<Line>

  // ------------------------------------------------------------ tags

  const SCRIPT_START := "<script src=\"/"
  const SCRIPT_END := "\" defer></script>"
  const STYLE_START := "<link rel=\"stylesheet\" href=\"/"
  const STYLE_END := "\">"

  function TagStart(assetType: AssetType): string {
    if assetType.Script? then SCRIPT_START else STYLE_START
  }

  function TagEnd(assetType: AssetType): string {
    if assetType.Script? then SCRIPT_END else STYLE_END
  }

  function AssetTag(asset: Asset): string {
    TagStart(asset.assetType) + (asset.path + TagEnd(asset.assetType))
  }

  function Between(text: string, start: string, end: string): Option<string> {
    if |start| + |end| <= |text| && start <= text && text[|text| - |end|..] == end
       && '"' !in text[|start|..|text| - |end|]
    then Some(text[|start|..|text| - |end|])
    else None
  }

  /** The asset that a line loads, when it is exactly one of the tags above. */
  function Loads(line: Line): Option<Asset> {
    match Between(line.text, SCRIPT_START, SCRIPT_END)
    case Some(path) => Some(Asset(Script, path))
    case None =>
      match Between(line.text, STYLE_START, STYLE_END)
      case Some(path) => Some(Asset(Stylesheet, path))
      case None => None
  }

  predicate IsTag(line: Line, asset: Asset) {
    line.text == AssetTag(asset)
  }

  // ------------------------------------------------------------ collapsing the references

  function SourceAsset(bundle: Bundle, index: nat): Asset
    requires index < |bundle.sources|
  {
    Asset(bundle.assetType, bundle.sources[index])
  }

  /** The tags whose presence shows that a page still loads the split sources. */
  function SplitCount(bundle: Bundle): nat
    requires bundle.sources != []
  {
    if bundle.sources[|bundle.sources| - 1] == bundle.output then |bundle.sources| - 1 else |bundle.sources|
  }

  predicate IsSplitTag(line: Line, bundle: Bundle)
    requires bundle.sources != []
  {
    exists k :: 0 <= k < SplitCount(bundle) && IsTag(line, SourceAsset(bundle, k))
  }

  predicate HasSplitTag(page: Page, bundle: Bundle)
    requires bundle.sources != []
  {
    exists i :: 0 <= i < |page| && IsSplitTag(page[i], bundle)
  }

  /** Position of the first line with the tag; the length when there is none. */
  function IndexOfTag(page: Page, asset: Asset): (i: nat)
    ensures i <= |page|
    ensures i < |page| ==> IsTag(page[i], asset)
    ensures forall j :: 0 <= j < i ==> !IsTag(page[j], asset)
  {
    if page == [] || IsTag(page[0], asset) then 0
    else
      assert forall j :: 1 <= j < IndexOfTag(page[1..], asset) + 1 ==> page[j] == page[1..][j - 1];
      IndexOfTag(page[1..], asset) + 1
  }

  predicate TagsAt(page: Page, bundle: Bundle, start: nat) {
    start + |bundle.sources| <= |page|
    && forall k :: 0 <= k < |bundle.sources| ==> IsTag(page[start + k], SourceAsset(bundle, k))
  }

  function NewlineOf(line: Line): string {
    if |line.end| >= 2 && line.end[|line.end| - 2..] == "\r\n" then "\r\n" else "\n"
  }

  function ReplacementLine(line: Line, bundle: Bundle): Line {
    Line(line.indent, AssetTag(Asset(bundle.assetType, bundle.output)), NewlineOf(line))
  }

  datatype Collapsed = Untouched | Rewritten(page: Page) | Incomplete

  function CollapsePage(page: Page, bundle: Bundle): Collapsed
    requires bundle.sources != []
  {
    if !HasSplitTag(page, bundle) then Untouched
    else
      var start := IndexOfTag(page, SourceAsset(bundle, 0));
      if start == |page| || !TagsAt(page, bundle, start) then Incomplete
      else Rewritten(page[..start] + [ReplacementLine(page[start], bundle)] + page[start + |bundle.sources|..])
  }

  // ------------------------------------------------------------ a build

  /** The pages and the text files of a build directory. */
  datatype Build = Build(pages: map<string, Page>, files: map<Path, string>)

  /** None stands for the exit with an error message. */
  function CollapsePages(pages: map<string, Page>, names: seq<string>, bundle: Bundle, referenced: bool)
    : Option<(map<string, Page>, bool)>
    requires bundle.sources != []
    decreases |names|
  {
    if names == [] then Some((pages, referenced))
    else if names[0] !in pages then CollapsePages(pages, names[1..], bundle, referenced)
    else
      match CollapsePage(pages[names[0]], bundle)
      case Untouched => CollapsePages(pages, names[1..], bundle, referenced)
      case Incomplete => None
      case Rewritten(page) => CollapsePages(pages[names[0] := page], names[1..], bundle, true)
  }

  function Terminated(content: string): (text: string)
    ensures text != [] && text[|text| - 1] == '\n'
  {
    if content != [] && content[|content| - 1] == '\n' then content else content + ['\n']
  }

  /** The sources one behind the other, each ending with a line feed. */
  function Joined(sources: seq<Path>, files: map<Path, string>): string
    requires forall s :: s in sources ==> s in files
  {
    if sources == [] then [] else Terminated(files[sources[0]]) + Joined(sources[1..], files)
  }

  function BundledFiles(files: map<Path, string>, bundle: Bundle): map<Path, string>
    requires forall s :: s in bundle.sources ==> s in files
  {
    (files - (set s | s in bundle.sources))[bundle.output := Joined(bundle.sources, files)]
  }

  /** A file that is listed twice cannot be removed the second time. */
  predicate RemovedTwice(bundle: Bundle) {
    exists i, j :: 0 <= i < j < |bundle.sources| && bundle.sources[i] == bundle.sources[j] && bundle.sources[i] != bundle.output
  }

  function ApplyBundle(build: Build, bundle: Bundle): Option<(Build, bool)>
    requires bundle.sources != []
  {
    match CollapsePages(build.pages, bundle.pages, bundle, false)
    case None => None
    case Some((pages, referenced)) =>
      if !referenced then Some((build, false))
      else if exists s :: s in bundle.sources && s !in build.files then None
      else if RemovedTwice(bundle) then None
      else Some((Build(pages, BundledFiles(build.files, bundle)), true))
  }

  function ApplyBundles(build: Build, bundles: seq<Bundle>): Option<Build>
    requires forall b :: b in bundles ==> b.sources != []
    decreases |bundles|
  {
    if bundles == [] then Some(build)
    else
      match ApplyBundle(build, bundles[0])
      case None => None
      case Some((next, _)) => ApplyBundles(next, bundles[1..])
  }

  /** A build directory that is changed page by page and file by file. */
  class BuildDirectory {
    var pages: map<string, Page>
    var files: map<Path, string>

    function Value(): Build
      reads this
    {
      Build(pages, files)
    }

    constructor (build: Build)
      ensures Value() == build
    {
      pages, files := build.pages, build.files;
    }

    method CollapseBundleReferences(bundle: Bundle) returns (ok: bool, referenced: bool)
      requires bundle.sources != []
      modifies this`pages
      ensures var r := CollapsePages(old(pages), bundle.pages, bundle, false);
              ok == r.Some? && (ok ==> r == Some((pages, referenced)))
    {
      hide CollapsePage;
      referenced := false;
      var i := 0;
      while i < |bundle.pages|
        invariant 0 <= i <= |bundle.pages|
        invariant CollapsePages(old(pages), bundle.pages, bundle, false)
               == CollapsePages(pages, bundle.pages[i..], bundle, referenced)
      {
        var name := bundle.pages[i];
        assert bundle.pages[i..][1..] == bundle.pages[i + 1..];
        if name in pages {
          var collapsed := CollapsePage(pages[name], bundle);
          if collapsed.Incomplete? {
            return false, referenced;
          }
          if collapsed.Rewritten? {
            referenced := true;
            pages := pages[name := collapsed.page];
          }
        }
        i := i + 1;
      }
      ok := true;
    }

    method ReadSources(bundle: Bundle) returns (text: string)
      requires forall s :: s in bundle.sources ==> s in files
      ensures text == Joined(bundle.sources, files)
    {
      text := [];
      for i := 0 to |bundle.sources|
        invariant Joined(bundle.sources, files) == text + Joined(bundle.sources[i..], files)
      {
        assert bundle.sources[i..][1..] == bundle.sources[i + 1..];
        text := text + Terminated(files[bundle.sources[i]]);
      }
    }

    method RemoveSources(bundle: Bundle) returns (ok: bool)
      requires forall s :: s in bundle.sources ==> s in files
      modifies this`files
      ensures ok <==> !RemovedTwice(bundle)
      ensures ok ==> files == old(files) - ((set s | s in bundle.sources) - {bundle.output})
    {
      for i := 0 to |bundle.sources|
        invariant files == old(files) - ((set s | s in bundle.sources[..i]) - {bundle.output})
        invariant forall j :: 0 <= j < i && bundle.sources[j] != bundle.output ==> bundle.sources[j] !in bundle.sources[..j]
      {
        assert bundle.sources[..i + 1] == bundle.sources[..i] + [bundle.sources[i]];
        if bundle.sources[i] != bundle.output {
          if bundle.sources[i] !in files {
            assert bundle.sources[i] in bundle.sources[..i];
            return false;
          }
          files := files - {bundle.sources[i]};
        }
      }
      assert bundle.sources[..|bundle.sources|] == bundle.sources;
      assert forall i, j :: 0 <= i < j < |bundle.sources| && bundle.sources[i] == bundle.sources[j] ==>
               bundle.sources[j] in bundle.sources[..j];
      ok := true;
    }

    method BundleOne(bundle: Bundle) returns (ok: bool, referenced: bool)
      requires bundle.sources != []
      modifies this
      ensures var r := ApplyBundle(old(Value()), bundle);
              ok == r.Some? && (ok ==> r == Some((Value(), referenced)))
    {
      hide CollapsePages, Joined;
      ok, referenced := CollapseBundleReferences(bundle);
      if !ok {
        return;
      }
      if !referenced {
        NothingRewritten(old(pages), bundle.pages, bundle);
        return;
      }
      if exists s :: s in bundle.sources && s !in files {
        ok := false;
        return;
      }
      var text := ReadSources(bundle);
      files := files[bundle.output := text];
      ok := RemoveSources(bundle);
      WriteThenRemove(old(files), (set s | s in bundle.sources), bundle.output, text);
    }
  }

  lemma {:induction false} CollapseMarksReferenced(
    pages: map<string, Page>, names: seq<string>, bundle: Bundle)
    requires bundle.sources != []
    ensures var r := CollapsePages(pages, names, bundle, true); r.Some? ==> r.value.1
    decreases |names|
  {
    hide CollapsePage;
    if names != [] {
      CollapseMarksReferenced(pages, names[1..], bundle);
      if names[0] in pages && CollapsePage(pages[names[0]], bundle).Rewritten? {
        CollapseMarksReferenced(pages[names[0] := CollapsePage(pages[names[0]], bundle).page], names[1..], bundle);
      }
    }
  }

  lemma {:induction false} NothingRewritten(pages: map<string, Page>, names: seq<string>, bundle: Bundle)
    requires bundle.sources != []
    ensures var r := CollapsePages(pages, names, bundle, false); r.Some? && !r.value.1 ==> r.value.0 == pages
    decreases |names|
  {
    hide CollapsePage;
    if names != [] {
      NothingRewritten(pages, names[1..], bundle);
      if names[0] in pages && CollapsePage(pages[names[0]], bundle).Rewritten? {
        CollapseMarksReferenced(pages[names[0] := CollapsePage(pages[names[0]], bundle).page], names[1..], bundle);
      }
    }
  }

  lemma WriteThenRemove(files: map<Path, string>, removed: set<Path>, output: Path, text: string)
    ensures files[output := text] - (removed - {output}) == (files - removed)[output := text]
  {}
}
