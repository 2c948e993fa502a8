/**
 * `Config\FileLoader` (src/Config/FileLoader.php), the older file loader. Its
 * `load` walks the same segments as the abstract loader, but builds the
 * directory part incrementally in `$buildPath`, merges every file that exists
 * and remembers in `$found` whether any did: a group whose files all return an
 * empty array loads as an empty array, not as null. Its `parseEnvironment` and
 * the merge it applies are the same as the abstract loader's.
 */
module ConfigFileLoader {
  import opened Php
  import LoaderAbstract
  import FileLoader

  /** The loader: the path exactly as given to the constructor, and the files it can read. */
  datatype Loader = Loader(path: string, files: map<string, Tree>)

  /** `$buildPath` after the segments `parts`: each segment followed by a separator. */
  function BuildPath(parts: seq<string>): string
    decreases |parts|
  {
    if parts == [] then "" else BuildPath(parts[..|parts| - 1]) + parts[|parts| - 1] + [FileLoader.Separator]
  }

  /** `$environmentFile` for the segments read so far. */
  function CandidateFile(loader: Loader, parts: seq<string>, group: string): string {
    loader.path + BuildPath(parts) + group + ".php"
  }

  /** One iteration's effect on `$items`, seen as a cascade reader that never faults. */
  function Read(loader: Loader): LoaderAbstract.Reader<()> {
    (parts: seq<string>, group: string) =>
      var file := CandidateFile(loader, parts, group);
      Ok(if file in loader.files then Some(loader.files[file]) else None)
  }

  /** `$found` after the first `n` iterations. */
  function Found(loader: Loader, segments: seq<string>, group: string, n: nat): bool
    requires n <= |segments|
  {
    n > 0 && (Found(loader, segments, group, n - 1) || CandidateFile(loader, segments[..n], group) in loader.files)
  }

  /** `$items` after the first `n` iterations. */
  function Items(loader: Loader, segments: seq<string>, group: string, n: nat): Tree
    requires n <= |segments|
  {
    LoaderAbstract.AccumulateFaultFree(Read(loader), segments, group, n);
    LoaderAbstract.Accumulate(Read(loader), segments, group, n).value
  }

  /** What `load` returns: the merged files when one existed (`$found ? $items : null`). */
  function LoadSpec(loader: Loader, environment: Option<string>, group: string): Option<Tree> {
    var segments := LoaderAbstract.ParseEnvironment(environment);
    if Found(loader, segments, group, |segments|) then Some(Items(loader, segments, group, |segments|)) else None
  }

  /**
   * `load`: `candidates` are the file names checked, one per segment, each
   * under a `$buildPath` that extends the previous one.
   */
  method Load(loader: Loader, environment: Option<string>, group: string)
    returns (r: Option<Tree>, candidates: seq<string>)
    ensures r == LoadSpec(loader, environment, group)
    ensures var segments := LoaderAbstract.ParseEnvironment(environment);
            && |candidates| == |segments|
            && forall i :: 0 <= i < |candidates| ==>
                 candidates[i] == CandidateFile(loader, segments[..i + 1], group)
  {
    var segments := LoaderAbstract.ParseEnvironment(environment);
    var found := false;
    var buildPath := "";
    var items: Tree := map[];
    candidates := [];
    var i := 0;
    while i < |segments|
      invariant 0 <= i <= |segments|
      invariant buildPath == BuildPath(segments[..i])
      invariant found == Found(loader, segments, group, i)
      invariant items == Items(loader, segments, group, i)
      invariant |candidates| == i
      invariant forall j :: 0 <= j < i ==> candidates[j] == CandidateFile(loader, segments[..j + 1], group)
    {
      BuildPathStep(segments, i);
      buildPath := buildPath + segments[i] + [FileLoader.Separator];
      var environmentFile := loader.path + buildPath + group + ".php";
      candidates := candidates + [environmentFile];
      ItemsStep(loader, segments, group, i);
      assert environmentFile == CandidateFile(loader, segments[..i + 1], group);
      assert Found(loader, segments, group, i + 1) == (found || environmentFile in loader.files);
      if environmentFile in loader.files {
        items := LoaderAbstract.MergeEnvironment(items, loader.files[environmentFile]);
        found := true;
      }
      i := i + 1;
    }
    r := if found then Some(items) else None;
  }

  /** One iteration extends `$buildPath` by the next segment and a separator. */
  lemma BuildPathStep(segments: seq<string>, i: nat)
    requires i < |segments|
    ensures BuildPath(segments[..i + 1]) == BuildPath(segments[..i]) + segments[i] + [FileLoader.Separator]
  {
    assert segments[..i + 1][..i] == segments[..i];
  }

  /** One iteration merges the next candidate file into `$items` when it exists. */
  lemma ItemsStep(loader: Loader, segments: seq<string>, group: string, i: nat)
    requires i < |segments|
    ensures var file := CandidateFile(loader, segments[..i + 1], group);
            Items(loader, segments, group, i + 1)
            == if file in loader.files then LoaderAbstract.MergeEnvironment(Items(loader, segments, group, i), loader.files[file])
               else Items(loader, segments, group, i)
  {
    LoaderAbstract.AccumulateFaultFree(Read(loader), segments, group, i);
    LoaderAbstract.AccumulateFaultFree(Read(loader), segments, group, i + 1);
  }

  /* ---------------------------------------------------------------- lemmas */

  /** `$found` holds exactly when some candidate file exists. */
  lemma {:induction false} FoundIff(loader: Loader, segments: seq<string>, group: string, n: nat)
    requires n <= |segments|
    ensures Found(loader, segments, group, n)
        <==> exists k :: 1 <= k <= n && CandidateFile(loader, segments[..k], group) in loader.files
  {
    if n > 0 {
      FoundIff(loader, segments, group, n - 1);
      if exists k :: 1 <= k <= n && CandidateFile(loader, segments[..k], group) in loader.files {
        var k :| 1 <= k <= n && CandidateFile(loader, segments[..k], group) in loader.files;
        if k < n {
          assert Found(loader, segments, group, n - 1);
        }
      }
    }
  }

  /** `load` is null exactly when no candidate file exists. */
  lemma LoadNullIff(loader: Loader, environment: Option<string>, group: string)
    ensures var segments := LoaderAbstract.ParseEnvironment(environment);
            LoadSpec(loader, environment, group) == None
            <==> forall k :: 1 <= k <= |segments| ==> CandidateFile(loader, segments[..k], group) !in loader.files
  {
    var segments := LoaderAbstract.ParseEnvironment(environment);
    FoundIff(loader, segments, group, |segments|);
  }

  /**
   * A later (more specific) file overrides a non-array value of an earlier one
   * unless an even later file supplies the key again.
   */
  lemma LaterFileWins(loader: Loader, environment: Option<string>, group: string, k: nat, key: string)
    requires var segments := LoaderAbstract.ParseEnvironment(environment);
             && 1 <= k <= |segments|
             && var file := CandidateFile(loader, segments[..k], group);
             && file in loader.files && key in loader.files[file] && !loader.files[file][key].Arr?
             && forall j :: k < j <= |segments| ==>
                  var later := CandidateFile(loader, segments[..j], group);
                  later !in loader.files || key !in loader.files[later]
    ensures var segments := LoaderAbstract.ParseEnvironment(environment);
            var file := CandidateFile(loader, segments[..k], group);
            && LoadSpec(loader, environment, group).Some?
            && key in LoadSpec(loader, environment, group).value
            && LoadSpec(loader, environment, group).value[key] == loader.files[file][key]
  {
    var segments := LoaderAbstract.ParseEnvironment(environment);
    var read := Read(loader);
    FoundIff(loader, segments, group, |segments|);
    LoaderAbstract.AccumulateFaultFree(read, segments, group, |segments|);
    forall j | k < j <= |segments|
      ensures !LoaderAbstract.Contributes(read, segments[..j], group, key)
    {
    }
    LoaderAbstract.AccumulateLaterWins(read, segments, group, k, |segments|, key);
  }

  /**
   * The nested form of `LaterFileWins`: a non-array leaf such as `db.host` in a
   * file is what the load holds at that path, when no later file reaches the
   * path or puts a non-array value on the way to it.
   */
  lemma LaterFileWinsPath(loader: Loader, environment: Option<string>, group: string, k: nat, path: seq<string>)
    requires var segments := LoaderAbstract.ParseEnvironment(environment);
             && 1 <= k <= |segments|
             && var file := CandidateFile(loader, segments[..k], group);
             && file in loader.files
             && Lookup(Arr(loader.files[file]), path).Some? && !Lookup(Arr(loader.files[file]), path).value.Arr?
             && forall j :: k < j <= |segments| ==>
                  var later := CandidateFile(loader, segments[..j], group);
                  later !in loader.files || LoaderAbstract.PassesOver(loader.files[later], path)
    ensures var segments := LoaderAbstract.ParseEnvironment(environment);
            var file := CandidateFile(loader, segments[..k], group);
            && LoadSpec(loader, environment, group).Some?
            && Lookup(Arr(LoadSpec(loader, environment, group).value), path) == Lookup(Arr(loader.files[file]), path)
  {
    var segments := LoaderAbstract.ParseEnvironment(environment);
    var read := Read(loader);
    FoundIff(loader, segments, group, |segments|);
    LoaderAbstract.AccumulateFaultFree(read, segments, group, |segments|);
    forall j | k < j <= |segments|
      ensures LoaderAbstract.LeavesPath(read, segments[..j], group, path)
    {
    }
    LoaderAbstract.AccumulateLaterWinsPath(read, segments, group, k, |segments|, path);
  }

  /** `$buildPath` only grows: the path of a shorter prefix is a prefix of the path of a longer one. */
  lemma {:induction false} BuildPathGrows(parts: seq<string>, i: nat, j: nat)
    requires i <= j <= |parts|
    ensures |BuildPath(parts[..i])| <= |BuildPath(parts[..j])|
    ensures BuildPath(parts[..j])[..|BuildPath(parts[..i])|] == BuildPath(parts[..i])
    decreases j - i
  {
    if i < j {
      BuildPathGrows(parts, i, j - 1);
      assert parts[..j][..j - 1] == parts[..j - 1];
      assert BuildPath(parts[..j]) == BuildPath(parts[..j - 1]) + parts[j - 1] + [FileLoader.Separator];
    }
  }

  /** `$buildPath` is `implode(sep, parts) . sep`. */
  lemma {:induction false} BuildPathIsJoin(parts: seq<string>)
    requires |parts| >= 1
    ensures BuildPath(parts) == Join(parts, [FileLoader.Separator]) + [FileLoader.Separator]
    decreases |parts|
  {
    if |parts| > 1 {
      var init := parts[..|parts| - 1];
      BuildPathIsJoin(init);
      JoinSnoc(init, parts[|parts| - 1], [FileLoader.Separator]);
      assert init + [parts[|parts| - 1]] == parts;
    }
  }

  /** Appending a piece appends it after a separator. */
  lemma {:induction false} JoinSnoc(parts: seq<string>, last: string, sep: string)
    requires |parts| >= 1
    ensures Join(parts + [last], sep) == Join(parts, sep) + sep + last
    decreases |parts|
  {
    var whole := parts + [last];
    assert whole[0] == parts[0];
    if |parts| > 1 {
      assert whole[1..] == parts[1..] + [last];
      JoinSnoc(parts[1..], last, sep);
    } else {
      assert whole[1..] == [last];
    }
  }

  /**
   * Both file loaders look at the same file names: this loader with the path
   * `p` and the newer one constructed from any path that normalises to `p`.
   */
  lemma SameCandidatesAsFileLoader(path: string, files: map<string, Tree>, parts: seq<string>, group: string)
    requires |parts| >= 1
    ensures CandidateFile(Loader(FileLoader.NormalizePath(path), files), parts, group)
         == FileLoader.FileName(FileLoader.New(path, files), parts, group)
  {
    BuildPathIsJoin(parts);
  }

  /**
   * Where the loaders part ways: when candidate files exist but all return an
   * empty array, this loader yields an empty array while the newer one yields null.
   */
  lemma EmptyGroupIsNotNull(path: string, files: map<string, Tree>, environment: Option<string>, group: string)
    requires var segments := LoaderAbstract.ParseEnvironment(environment);
             var legacy := Loader(FileLoader.NormalizePath(path), files);
             && (exists k :: 1 <= k <= |segments| && CandidateFile(legacy, segments[..k], group) in files)
             && forall k :: 1 <= k <= |segments| && CandidateFile(legacy, segments[..k], group) in files ==>
                  files[CandidateFile(legacy, segments[..k], group)] == map[]
    ensures LoadSpec(Loader(FileLoader.NormalizePath(path), files), environment, group) == Some(map[])
    ensures FileLoader.Load(FileLoader.New(path, files), environment, group) == None
  {
    var segments := LoaderAbstract.ParseEnvironment(environment);
    var legacy := Loader(FileLoader.NormalizePath(path), files);
    var newer := FileLoader.New(path, files);
    forall k | 1 <= k <= |segments|
      ensures CandidateFile(legacy, segments[..k], group) == FileLoader.FileName(newer, segments[..k], group)
    {
      SameCandidatesAsFileLoader(path, files, segments[..k], group);
    }
    FoundIff(legacy, segments, group, |segments|);
    LoaderAbstract.AccumulateAllEmpty(Read(legacy), segments, group, |segments|);
    FileLoader.LoadNullIff(newer, environment, group);
  }
}
