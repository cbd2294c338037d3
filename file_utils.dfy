/** File helpers: the recursive file listing with its extension, name and hidden-entry
    filters, the choice of reader by extension, and the directory guard.

    The file system is a tree of entries; `os.walk` is the function `Walk` over it, which
    prunes the hidden directories when the listing skips them, as the listing's
    `dirnames[:]` assignment makes `os.walk` do. */
module FileUtils {
  import opened Wrappers
  import opened Strings

  datatype Entry = File(name: string) | Directory(name: string, entries: seq<Entry>)

  /** A dot-prefixed name. */
  predicate Hidden(name: string) {
    StartsWith(name, ".")
  }

  /** `os.path.join(root, name)` for a name without '/'. */
  function PathJoin(root: string, name: string): (p: string)
    ensures EndsWith(p, name)
  {
    if root == [] || root[|root| - 1] == '/' then root + name else root + "/" + name
  }

  function FileNames(entries: seq<Entry>): (names: seq<string>)
    ensures |names| <= |entries|
    ensures forall n :: n in names <==> File(n) in entries
  {
    if entries == [] then []
    else
      var rest := FileNames(entries[1..]);
      assert forall e :: e in entries <==> e == entries[0] || e in entries[1..];
      if entries[0].File? then [entries[0].name] + rest else rest
  }

  /** One triple `os.walk` yields: the directory's path and its file names, plus the names
      of the directories descended through to reach it. */
  datatype Step = Step(root: string, via: seq<string>, filenames: seq<string>)

  /** `os.walk(root)` top-down over a directory holding `entries`, reached through `via`:
      the directory itself, then each subdirectory in listing order, the hidden ones left
      out when `skipHidden`. */
  function Walk(root: string, via: seq<string>, entries: seq<Entry>, skipHidden: bool): (r: seq<Step>)
    ensures |r| >= 1 && r[0] == Step(root, via, FileNames(entries))
    decreases entries, 1
  {
    [Step(root, via, FileNames(entries))] + Descend(root, via, entries, skipHidden)
  }

  function Descend(root: string, via: seq<string>, entries: seq<Entry>, skipHidden: bool): seq<Step>
    decreases entries, 0
  {
    if entries == [] then []
    else
      var first :=
        match entries[0]
        case File(_) => []
        case Directory(n, children) =>
          if skipHidden && Hidden(n) then [] else Walk(PathJoin(root, n), via + [n], children, skipHidden);
      first + Descend(root, via, entries[1..], skipHidden)
  }

  /** Every directory the walk reaches lies under the starting one, through directories
      that are not hidden when `skipHidden`. */
  lemma {:induction false} WalkAvoidsHidden(root: string, via: seq<string>, entries: seq<Entry>, skipHidden: bool)
    ensures forall s :: s in Walk(root, via, entries, skipHidden) ==>
      via <= s.via && (skipHidden ==> forall k :: |via| <= k < |s.via| ==> !Hidden(s.via[k]))
    decreases entries, 1
  {
    DescendAvoidsHidden(root, via, entries, skipHidden);
  }

  lemma {:induction false} DescendAvoidsHidden(root: string, via: seq<string>, entries: seq<Entry>, skipHidden: bool)
    ensures forall s :: s in Descend(root, via, entries, skipHidden) ==>
      via <= s.via && (skipHidden ==> forall k :: |via| <= k < |s.via| ==> !Hidden(s.via[k]))
    decreases entries, 0
  {
    if entries != [] {
      DescendAvoidsHidden(root, via, entries[1..], skipHidden);
      match entries[0]
      case File(_) =>
      case Directory(n, children) =>
        if !(skipHidden && Hidden(n)) {
          WalkAvoidsHidden(PathJoin(root, n), via + [n], children, skipHidden);
          forall s | s in Walk(PathJoin(root, n), via + [n], children, skipHidden)
            ensures via <= s.via && (skipHidden ==> forall k :: |via| <= k < |s.via| ==> !Hidden(s.via[k]))
          {
            assert via <= via + [n];
            assert (via + [n])[|via|] == n;
          }
        }
    }
  }

  /** `{ext.lower() for ext in extensions} if extensions else None`: no extension filter for
      `None` or an empty list. */
  function ExtSet(extensions: Option<seq<string>>): (r: Option<set<string>>)
    ensures r.None? <==> extensions.None? || extensions.value == []
    ensures r.Some? ==> forall x :: x in r.value <==> exists e :: e in extensions.value && Lower(e) == x
  {
    match extensions
    case None => None
    case Some(exts) => if exts == [] then None else Some(set e | e in exts :: Lower(e))
  }

  /** The per-file test of the listing loop: an empty or absent name filter keeps every
      name, a present one keeps names containing it; the extension, lower-cased, must be in
      the set when there is one. */
  predicate Matches(name: string, extSet: Option<set<string>>, nameFilter: Option<string>) {
    (nameFilter.None? || nameFilter.value == "" || Contains(name, nameFilter.value))
    && (extSet.None? || Lower(SplitExt(name).1) in extSet.value)
  }

  /** The file names the loop looks at: with `skipHidden` the dot-prefixed ones are dropped. */
  function Visible(names: seq<string>, skipHidden: bool): (r: seq<string>)
    ensures forall n :: n in r <==> n in names && !(skipHidden && Hidden(n))
  {
    if skipHidden then Filter(names, (n: string) => !Hidden(n)) else names
  }

  /** The paths `root/name` of the names that `keep` accepts, in order. */
  function JoinKept(root: string, names: seq<string>, keep: string -> bool): seq<string> {
    if names == [] then []
    else
      var last := names[|names| - 1];
      JoinKept(root, names[..|names| - 1], keep) + (if keep(last) then [PathJoin(root, last)] else [])
  }

  function Keep(extSet: Option<set<string>>, nameFilter: Option<string>): string -> bool {
    (name: string) => Matches(name, extSet, nameFilter)
  }

  /** The paths one step contributes, for the first names of its visible files. */
  function Picked(root: string, names: seq<string>, extSet: Option<set<string>>, nameFilter: Option<string>): seq<string> {
    JoinKept(root, names, Keep(extSet, nameFilter))
  }

  /** The parts of `xs`, concatenated in order. */
  function ConcatParts(xs: seq<Step>, part: Step -> seq<string>): seq<string> {
    if xs == [] then [] else ConcatParts(xs[..|xs| - 1], part) + part(xs[|xs| - 1])
  }

  /** What one step of the walk contributes to the listing. */
  function StepPaths(extSet: Option<set<string>>, nameFilter: Option<string>, skipHidden: bool): Step -> seq<string> {
    (step: Step) => Picked(step.root, Visible(step.filenames, skipHidden), extSet, nameFilter)
  }

  /** The paths the listing collects from the first steps of the walk. */
  function Listed(steps: seq<Step>, extSet: Option<set<string>>, nameFilter: Option<string>, skipHidden: bool): seq<string> {
    ConcatParts(steps, StepPaths(extSet, nameFilter, skipHidden))
  }

  /** `list_files(directory, extensions, name_filter, skip_hidden)` on the entry found at
      `directory`, if any: nothing when it does not exist or is a file. */
  function ListFilesSpec(node: Option<Entry>, directory: string, extensions: Option<seq<string>>,
                         nameFilter: Option<string>, skipHidden: bool): seq<string>
  {
    match node
    case None => []
    case Some(File(_)) => []
    case Some(Directory(_, entries)) =>
      Listed(Walk(directory, [], entries, skipHidden), ExtSet(extensions), nameFilter, skipHidden)
  }

  lemma {:induction false} JoinKeptExactly(root: string, names: seq<string>, keep: string -> bool, p: string)
    ensures p in JoinKept(root, names, keep) <==> exists k :: 0 <= k < |names| && keep(names[k]) && p == PathJoin(root, names[k])
  {
    if names != [] {
      var init := names[..|names| - 1];
      JoinKeptExactly(root, init, keep, p);
      if exists k :: 0 <= k < |names| && keep(names[k]) && p == PathJoin(root, names[k]) {
        var k :| 0 <= k < |names| && keep(names[k]) && p == PathJoin(root, names[k]);
        if k < |init| {
          assert init[k] == names[k];
        }
      }
    }
  }

  lemma PickedExactly(root: string, names: seq<string>, extSet: Option<set<string>>, nameFilter: Option<string>, p: string)
    ensures p in Picked(root, names, extSet, nameFilter) <==>
      exists k :: 0 <= k < |names| && Matches(names[k], extSet, nameFilter) && p == PathJoin(root, names[k])
  {
    var keep := Keep(extSet, nameFilter);
    JoinKeptExactly(root, names, keep, p);
    assert forall k :: 0 <= k < |names| ==> (keep(names[k]) <==> Matches(names[k], extSet, nameFilter));
  }

  /** The paths one step contributes. */
  lemma PickedVisible(step: Step, extSet: Option<set<string>>, nameFilter: Option<string>, skipHidden: bool, p: string)
    ensures p in Picked(step.root, Visible(step.filenames, skipHidden), extSet, nameFilter) <==>
      exists name :: name in step.filenames && !(skipHidden && Hidden(name)) && Matches(name, extSet, nameFilter) && p == PathJoin(step.root, name)
  {
    var names := Visible(step.filenames, skipHidden);
    PickedExactly(step.root, names, extSet, nameFilter, p);
    if exists name :: name in step.filenames && !(skipHidden && Hidden(name)) && Matches(name, extSet, nameFilter) && p == PathJoin(step.root, name) {
      var name :| name in step.filenames && !(skipHidden && Hidden(name)) && Matches(name, extSet, nameFilter) && p == PathJoin(step.root, name);
      var k :| 0 <= k < |names| && names[k] == name;
    }
  }

  /** A path is listed exactly when some step of the walk has a visible file whose name
      passes the filters and the path joins the step's directory with that name. */
  lemma {:induction false} ConcatPartsExactly(xs: seq<Step>, part: Step -> seq<string>, p: string)
    ensures p in ConcatParts(xs, part) <==> exists i :: 0 <= i < |xs| && p in part(xs[i])
  {
    if xs != [] {
      var init := xs[..|xs| - 1];
      ConcatPartsExactly(init, part, p);
      assert forall i :: 0 <= i < |init| ==> init[i] == xs[i];
    }
  }

  lemma ListedExactly(steps: seq<Step>, extSet: Option<set<string>>, nameFilter: Option<string>, skipHidden: bool, p: string)
    ensures p in Listed(steps, extSet, nameFilter, skipHidden) <==>
      exists i :: 0 <= i < |steps| && p in Picked(steps[i].root, Visible(steps[i].filenames, skipHidden), extSet, nameFilter)
  {
    ConcatPartsExactly(steps, StepPaths(extSet, nameFilter, skipHidden), p);
  }

  /** A missing directory, or a file given as the directory, lists nothing. */
  lemma NothingToList(node: Option<Entry>, directory: string, extensions: Option<seq<string>>,
                      nameFilter: Option<string>, skipHidden: bool)
    requires node.None? || node.value.File?
    ensures ListFilesSpec(node, directory, extensions, nameFilter, skipHidden) == []
  {
  }

  /** With an extension list, a name passes exactly when its lower-cased extension is the
      lower-cased form of one of the listed extensions. */
  lemma ExtensionCaseInsensitive(name: string, extensions: seq<string>)
    requires extensions != []
    ensures Matches(name, ExtSet(Some(extensions)), None) <==>
      exists e :: e in extensions && Lower(e) == Lower(SplitExt(name).1)
  {
  }

  lemma UpperCaseExtension()
    ensures SplitExt("README.TXT").1 == ".TXT"
  {
    assert "README.TXT" == "README" + ".TXT";
    SplitExtAt("README.TXT", "README", ".TXT");
  }

  /** `README.TXT` passes the filter `[".txt"]`. */
  lemma UpperCaseExtensionListed()
    ensures Matches("README.TXT", ExtSet(Some([".txt"])), None)
  {
    UpperCaseExtension();
    assert Lower(".TXT") == ".txt";
    assert ".txt" in [".txt"];
  }

  /** `None` and an empty list both turn extension filtering off. */
  lemma NoExtensionFilter(name: string, nameFilter: Option<string>)
    ensures Matches(name, ExtSet(None), nameFilter) == Matches(name, ExtSet(Some([])), nameFilter)
    ensures Matches(name, ExtSet(None), nameFilter) <==> nameFilter.None? || nameFilter.value == "" || Contains(name, nameFilter.value)
  {
  }

  /** Every listed path ends in a name that passes the filters and, with `skipHidden`, is
      neither hidden nor reached through a hidden directory. */
  lemma ListedPathsFiltered(entries: seq<Entry>, directory: string, extensions: Option<seq<string>>,
                            nameFilter: Option<string>, skipHidden: bool, p: string)
    requires p in ListFilesSpec(Some(Directory("", entries)), directory, extensions, nameFilter, skipHidden)
    ensures exists s, name :: (s in Walk(directory, [], entries, skipHidden) && name in s.filenames
      && Matches(name, ExtSet(extensions), nameFilter) && p == PathJoin(s.root, name)
      && (skipHidden ==> !Hidden(name) && forall k :: 0 <= k < |s.via| ==> !Hidden(s.via[k])))
  {
    var steps := Walk(directory, [], entries, skipHidden);
    ListedExactly(steps, ExtSet(extensions), nameFilter, skipHidden, p);
    WalkAvoidsHidden(directory, [], entries, skipHidden);
    var i :| 0 <= i < |steps| && p in Picked(steps[i].root, Visible(steps[i].filenames, skipHidden), ExtSet(extensions), nameFilter);
    PickedVisible(steps[i], ExtSet(extensions), nameFilter, skipHidden, p);
    assert steps[i] in steps;
  }

  lemma PickedStep(root: string, names: seq<string>, extSet: Option<set<string>>, nameFilter: Option<string>, j: int)
    requires 0 <= j < |names|
    ensures Picked(root, names[..j + 1], extSet, nameFilter) ==
      Picked(root, names[..j], extSet, nameFilter) + (if Matches(names[j], extSet, nameFilter) then [PathJoin(root, names[j])] else [])
  {
    JoinKeptStep(root, names, Keep(extSet, nameFilter), j);
  }

  lemma JoinKeptStep(root: string, names: seq<string>, keep: string -> bool, j: int)
    requires 0 <= j < |names|
    ensures JoinKept(root, names[..j + 1], keep) == JoinKept(root, names[..j], keep) + (if keep(names[j]) then [PathJoin(root, names[j])] else [])
  {
    assert names[..j + 1][..j] == names[..j];
  }

  lemma ListedStep(steps: seq<Step>, extSet: Option<set<string>>, nameFilter: Option<string>, skipHidden: bool, i: int)
    requires 0 <= i < |steps|
    ensures Listed(steps[..i + 1], extSet, nameFilter, skipHidden) ==
      Listed(steps[..i], extSet, nameFilter, skipHidden) + Picked(steps[i].root, Visible(steps[i].filenames, skipHidden), extSet, nameFilter)
  {
    ConcatPartsStep(steps, StepPaths(extSet, nameFilter, skipHidden), i);
  }

  lemma ConcatPartsStep(xs: seq<Step>, part: Step -> seq<string>, i: int)
    requires 0 <= i < |xs|
    ensures ConcatParts(xs[..i + 1], part) == ConcatParts(xs[..i], part) + part(xs[i])
  {
    assert xs[..i + 1][..i] == xs[..i];
  }

  /** The loop over one step's visible file names. */
  method PickFiles(root: string, names: seq<string>, extSet: Option<set<string>>, nameFilter: Option<string>)
    returns (picked: seq<string>)
    ensures picked == Picked(root, names, extSet, nameFilter)
  {
    picked := [];
    var j := 0;
    while j < |names|
      invariant 0 <= j <= |names|
      invariant picked == Picked(root, names[..j], extSet, nameFilter)
    {
      PickedStep(root, names, extSet, nameFilter, j);
      var filename := names[j];
      if nameFilter.Some? && nameFilter.value != "" && !Contains(filename, nameFilter.value) {
        j := j + 1;
        continue;
      }
      var ext := Lower(SplitExt(filename).1);
      if extSet.Some? && ext !in extSet.value {
        j := j + 1;
        continue;
      }
      picked := picked + [PathJoin(root, filename)];
      j := j + 1;
    }
    assert names[..j] == names;
  }

  /** `list_files`: the loop over the walk's steps. */
  method ListFiles(node: Option<Entry>, directory: string, extensions: Option<seq<string>>,
                   nameFilter: Option<string>, skipHidden: bool) returns (files: seq<string>)
    ensures files == ListFilesSpec(node, directory, extensions, nameFilter, skipHidden)
  {
    files := [];
    if node.None? || node.value.File? {
      return;
    }
    var extSet := ExtSet(extensions);
    var steps := Walk(directory, [], node.value.entries, skipHidden);
    var i := 0;
    while i < |steps|
      invariant 0 <= i <= |steps|
      invariant files == Listed(steps[..i], extSet, nameFilter, skipHidden)
    {
      ListedStep(steps, extSet, nameFilter, skipHidden, i);
      var step := steps[i];
      var filenames := Visible(step.filenames, skipHidden);
      var picked := PickFiles(step.root, filenames, extSet, nameFilter);
      files := files + picked;
      i := i + 1;
    }
    assert steps[..i] == steps;
  }

  // ----- Reading a file -----

  datatype Reader = TextReader | PdfReader | HtmlReader | XlsxReader

  /** The reader `read_file`'s table gives a lower-cased extension. */
  function ReaderOf(ext: string): (r: Option<Reader>)
    ensures r == Some(HtmlReader) <==> ext == ".html" || ext == ".htm"
    ensures r.None? <==> ext !in {".txt", ".pdf", ".html", ".htm", ".xlsx"}
  {
    if ext == ".txt" then Some(TextReader)
    else if ext == ".pdf" then Some(PdfReader)
    else if ext == ".html" || ext == ".htm" then Some(HtmlReader)
    else if ext == ".xlsx" then Some(XlsxReader)
    else None
  }

  /** The reader chosen for a path, by its lower-cased extension. */
  function ReaderFor(path: string): Option<Reader> {
    ReaderOf(Lower(SplitExt(path).1))
  }

  /** `read_file(path)`: "" for a missing file, an unsupported extension or a reader that
      raises (`read` gives `None`), else what the reader returns. */
  function ReadFile(path: string, exists_: bool, read: (Reader, string) -> Option<string>): (content: string)
    ensures !exists_ || ReaderFor(path).None? ==> content == ""
    ensures exists_ && ReaderFor(path).Some? ==> content == read(ReaderFor(path).value, path).GetOr("")
  {
    if !exists_ then ""
    else match ReaderFor(path)
      case None => ""
      case Some(reader) => read(reader, path).GetOr("")
  }

  /** Paths whose extensions differ only in letter case get the same reader. */
  lemma ReaderIgnoresCase(p: string, q: string)
    requires Lower(SplitExt(p).1) == Lower(SplitExt(q).1)
    ensures ReaderFor(p) == ReaderFor(q)
  {
  }

  /** `page.HTM` is read as HTML. */
  lemma HtmReadAsHtml()
    ensures ReaderFor("page.HTM") == Some(HtmlReader)
  {
    assert "page.HTM" == "page" + ".HTM";
    SplitExtAt("page.HTM", "page", ".HTM");
    HtmLower();
  }

  lemma HtmLower()
    ensures Lower(".HTM") == ".htm"
  {
  }

  // ----- Directories -----

  /** `ensure_directory(directory)`: an empty path raises `ValueError`; any other is created
      (with `exist_ok`) and added to the set of directories. */
  function EnsureDirectory(directories: set<string>, directory: string): (r: Result<set<string>>)
    ensures r.Err? <==> directory == ""
    ensures r.Ok? ==> directory in r.value && directories <= r.value
  {
    if directory == "" then Err("ValueError") else Ok(directories + {directory})
  }

  /** Ensuring a directory twice is ensuring it once. */
  lemma EnsureDirectoryIdempotent(directories: set<string>, directory: string)
    requires directory != ""
    ensures EnsureDirectory(EnsureDirectory(directories, directory).value, directory) == EnsureDirectory(directories, directory)
  {
  }
}
