/**
 * `Config\Loader\FileLoader`: the cascade of the abstract loader over PHP files.
 * The prefix `["", "staging"]` and the group `app` name the file
 * `<path>/staging/app.php` below the normalised base path.
 *
 * The filesystem is a map from a file name to the array that including the file
 * returns; `is_file` is membership in that map.
 */
module FileLoader {
  import opened Php
  import LoaderAbstract

  /** `DIRECTORY_SEPARATOR`, fixed to the POSIX value. */
  const Separator: char := '/'

  /** A file loader: its base path (as stored by the constructor) and the files it can read. */
  datatype Loader = Loader(path: string, files: map<string, Tree>)

  /**
   * The constructor's `rtrim($path, DIRECTORY_SEPARATOR) . DIRECTORY_SEPARATOR`:
   * the path without its trailing separators, followed by exactly one.
   */
  function NormalizePath(path: string): (p: string)
    ensures |p| >= 1 && p[|p| - 1] == Separator
    ensures |p| == 1 || p[|p| - 2] != Separator
    ensures |p| - 1 <= |path| && p[..|p| - 1] == path[..|p| - 1]
    ensures forall j :: |p| - 1 <= j < |path| ==> path[j] == Separator
  {
    RTrim(path, Separator) + [Separator]
  }

  /** `new FileLoader($path)`, given the files visible to it. */
  function New(path: string, files: map<string, Tree>): Loader {
    Loader(NormalizePath(path), files)
  }

  /** The file `readConfig` looks at: `path . implode(sep, parts) . sep . group . ".php"`. */
  function FileName(loader: Loader, pathParts: seq<string>, group: string): (name: string)
    ensures |loader.path| <= |name| && name[..|loader.path|] == loader.path
    ensures |group| + 4 <= |name| && name[|name| - |group| - 4..] == group + ".php"
  {
    loader.path + Join(pathParts, [Separator]) + [Separator] + group + ".php"
  }

  /** `readConfig`: the array the file returns, or null when there is no such file. */
  function ReadConfig(loader: Loader, pathParts: seq<string>, group: string): Option<Tree>
  {
    var file := FileName(loader, pathParts, group);
    if file in loader.files then Some(loader.files[file]) else None
  }

  /** `readConfig` as the cascade sees it; reading a file never faults here. */
  function Read(loader: Loader): LoaderAbstract.Reader<()> {
    (pathParts: seq<string>, group: string) => Ok(ReadConfig(loader, pathParts, group))
  }

  /** The inherited `load`. */
  function Load(loader: Loader, environment: Option<string>, group: string): Option<Tree> {
    LoaderAbstract.CascadeFaultFree(Read(loader), environment, group);
    LoaderAbstract.Cascade(Read(loader), environment, group).value
  }

  /* ---------------------------------------------------------------- lemmas */

  /** Trailing separators do not matter: "dir", "dir/" and "dir///" give the same base path. */
  lemma NormalizeIgnoresTrailingSeparator(path: string)
    ensures NormalizePath(path + [Separator]) == NormalizePath(path)
  {
    var s := path + [Separator];
    assert s[..|s| - 1] == path;
  }

  /** Constructing a loader from an already normalised path changes nothing. */
  lemma NormalizeIdempotent(path: string)
    ensures NormalizePath(NormalizePath(path)) == NormalizePath(path)
  {
    NormalizeIgnoresTrailingSeparator(RTrim(path, Separator));
  }

  /** A directory name, with one or with three trailing separators, gives the same base path. */
  lemma NormalizeExamples(name: string)
    requires name != [] && name[|name| - 1] != Separator
    ensures NormalizePath(name) == NormalizePath(name + "/") == NormalizePath(name + "///") == name + "/"
  {
    var once := name + [Separator];
    var twice := once + [Separator];
    NormalizeIgnoresTrailingSeparator(name);
    NormalizeIgnoresTrailingSeparator(once);
    NormalizeIgnoresTrailingSeparator(twice);
    assert once == name + "/";
    assert twice + [Separator] == name + "///";
    assert RTrim(name, Separator) == name;
  }

  /**
   * `load` is null exactly when every candidate file is missing or returns an
   * empty array.
   */
  lemma LoadNullIff(loader: Loader, environment: Option<string>, group: string)
    ensures var segments := LoaderAbstract.ParseEnvironment(environment);
            Load(loader, environment, group) == None
            <==> forall k :: 1 <= k <= |segments| ==>
                   var file := FileName(loader, segments[..k], group);
                   file !in loader.files || loader.files[file] == map[]
    ensures Load(loader, environment, group) != Some(map[])
  {
    var segments := LoaderAbstract.ParseEnvironment(environment);
    var read := Read(loader);
    LoaderAbstract.CascadeNullIff(read, environment, group);
    forall k | 1 <= k <= |segments|
      ensures LoaderAbstract.ReadsEmpty(read, segments[..k], group)
          <==> (FileName(loader, segments[..k], group) !in loader.files
                || loader.files[FileName(loader, segments[..k], group)] == map[])
    {
    }
  }
}
