/**
 * The environment cascade shared by every loader derived from the abstract
 * loader: the environment name is split into segments, the backend is asked once
 * per growing prefix of those segments, and every tree it returns is merged on
 * top of the accumulator with `array_replace_recursive`.
 *
 * A loader's `readConfig` is a `Reader`: it answers a prefix and a group with a
 * tree, with "nothing here" (`None`, PHP's null), or with a fault `E` that aborts
 * the whole load.
 */
module LoaderAbstract {
  import opened Php

  /** `preg_split('/(\/|\.)/', ...)` splits at either character. */
  const EnvSeparators: set<char> := {'.', '/'}

  type Reader<E> = (seq<string>, string) -> Result<Option<Tree>, E>

  /**
   * `parseEnvironment`: the `.`/`/`-separated parts of the environment with the
   * falsy parts ("" and "0") dropped, after a synthetic root segment "".
   * A null environment behaves as "".
   */
  function ParseEnvironment(environment: Option<string>): (segments: seq<string>)
    ensures |segments| >= 1 && segments[0] == ""
    ensures forall i :: 1 <= i < |segments| ==>
              TruthyString(segments[i]) && NoneOf(segments[i], EnvSeparators)
  {
    [""] + FilterTruthy(Split(environment.GetOr(""), EnvSeparators))
  }

  /**
   * `mergeEnvironment`, i.e. `array_replace_recursive($items1, $items2)`: keys of
   * either side are kept; when both sides hold an array the two are merged
   * recursively, otherwise the value of `items2` wins (an explicit null included).
   */
  function MergeEnvironment(items1: Tree, items2: Tree): (r: Tree)
    ensures r.Keys == items1.Keys + items2.Keys
    ensures forall k :: k in items1 && k !in items2 ==> r[k] == items1[k]
    ensures forall k :: k in items2 && !(k in items1 && items1[k].Arr? && items2[k].Arr?) ==> r[k] == items2[k]
    decreases Arr(items2)
  {
    map k | k in items1.Keys + items2.Keys ::
      if k in items2 then
        if k in items1 && items1[k].Arr? && items2[k].Arr?
        then Arr(MergeEnvironment(items1[k].m, items2[k].m))
        else items2[k]
      else items1[k]
  }

  /**
   * The accumulator after the first `n` iterations of the loop in `load`:
   * iteration `n` reads the prefix `segments[..n]`.
   */
  function Accumulate<E>(read: Reader<E>, segments: seq<string>, group: string, n: nat): Result<Tree, E>
    requires n <= |segments|
  {
    if n == 0 then Ok(map[])
    else
      match Accumulate(read, segments, group, n - 1)
      case Err(e) => Err(e)
      case Ok(acc) =>
        match read(segments[..n], group)
        case Err(e) => Err(e)
        case Ok(None) => Ok(acc)
        case Ok(Some(t)) => Ok(MergeEnvironment(acc, t))
  }

  /** What `load` returns: the merged tree, or null when it is empty (`$items ?: null`). */
  function Cascade<E>(read: Reader<E>, environment: Option<string>, group: string): Result<Option<Tree>, E>
  {
    var segments := ParseEnvironment(environment);
    match Accumulate(read, segments, group, |segments|)
    case Err(e) => Err(e)
    case Ok(acc) => Ok(if acc == map[] then None else Some(acc))
  }

  /**
   * `load`: one `readConfig` call per prefix of the segments, in order; `calls`
   * records the prefix passed to each call. A fault ends the loop (the PHP
   * exception propagates).
   */
  method Load<E>(read: Reader<E>, environment: Option<string>, group: string)
    returns (r: Result<Option<Tree>, E>, calls: seq<seq<string>>)
    ensures r == Cascade(read, environment, group)
    ensures var segments := ParseEnvironment(environment);
            && |calls| <= |segments|
            && (forall i :: 0 <= i < |calls| ==> calls[i] == segments[..i + 1])
            && (r.Ok? ==> |calls| == |segments|)
    ensures forall i :: 0 <= i < |calls| - 1 ==> read(calls[i], group).Ok?
    ensures r.Err? ==> |calls| >= 1 && read(calls[|calls| - 1], group) == Err(r.error)
  {
    var segments := ParseEnvironment(environment);
    var envParts: seq<string> := [];
    var items: Tree := map[];
    calls := [];
    var i := 0;
    while i < |segments|
      invariant 0 <= i <= |segments|
      invariant envParts == segments[..i]
      invariant |calls| == i && forall j :: 0 <= j < i ==> calls[j] == segments[..j + 1]
      invariant forall j :: 0 <= j < i ==> read(calls[j], group).Ok?
      invariant Accumulate(read, segments, group, i) == Ok(items)
    {
      envParts := envParts + [segments[i]];
      assert envParts == segments[..i + 1];
      calls := calls + [envParts];
      var envItems := read(envParts, group);
      match envItems {
        case Err(e) =>
          AccumulateFaultPersists(read, segments, group, i + 1, |segments|);
          r := Err(e);
          return;
        case Ok(None) =>
        case Ok(Some(t)) =>
          items := MergeEnvironment(items, t);
      }
      i := i + 1;
    }
    r := Ok(if items == map[] then None else Some(items));
  }

  /* ------------------------------------------------------- environment */

  /** Splitting at a separator splits the segment list (empty pieces vanish). */
  lemma ParseEnvironmentAppend(a: string, c: char, b: string)
    requires c in EnvSeparators
    ensures ParseEnvironment(Some(a + [c] + b))
         == ParseEnvironment(Some(a)) + ParseEnvironment(Some(b))[1..]
  {
    SplitAppend(a, c, b, EnvSeparators);
    FilterAppend(Split(a, EnvSeparators), Split(b, EnvSeparators));
  }

  /** An environment written as truthy, separator-free names parses back to them. */
  lemma ParseEnvironmentOfNames(names: seq<string>, c: char)
    requires |names| >= 1 && c in EnvSeparators
    requires forall i :: 0 <= i < |names| ==> TruthyString(names[i]) && NoneOf(names[i], EnvSeparators)
    ensures ParseEnvironment(Some(Join(names, [c]))) == [""] + names
  {
    SplitJoin(names, c, EnvSeparators);
    FilterAllTruthy(names);
  }

  /** A null or empty environment yields only the root segment. */
  lemma ParseEnvironmentEmpty(environment: Option<string>)
    requires environment == None || environment == Some("")
    ensures ParseEnvironment(environment) == [""]
  {
  }

  /* ---------------------------------------------------------------- merge */

  /** Merging onto an empty accumulator copies the overlay; merging nothing keeps the base. */
  lemma MergeIdentity(t: Tree)
    ensures MergeEnvironment(map[], t) == t
    ensures MergeEnvironment(t, map[]) == t
  {
  }

  /** A tree merged with itself is the tree. */
  lemma {:induction false} MergeSelf(t: Tree)
    ensures MergeEnvironment(t, t) == t
    decreases Arr(t)
  {
    forall k | k in t && t[k].Arr?
      ensures MergeEnvironment(t[k].m, t[k].m) == t[k].m
    {
      MergeSelf(t[k].m);
    }
  }

  /** Applying the same overlay twice is the same as applying it once. */
  lemma {:induction false} MergeIdempotent(base: Tree, overlay: Tree)
    ensures MergeEnvironment(MergeEnvironment(base, overlay), overlay) == MergeEnvironment(base, overlay)
    decreases Arr(overlay)
  {
    var once := MergeEnvironment(base, overlay);
    forall k | k in overlay && overlay[k].Arr?
      ensures once[k].Arr?
      ensures MergeEnvironment(once[k].m, overlay[k].m) == once[k].m
    {
      if k in base && base[k].Arr? {
        MergeIdempotent(base[k].m, overlay[k].m);
      } else {
        MergeSelf(overlay[k].m);
      }
    }
  }

  /** A non-array leaf of the overlay is what the merged tree holds at that path. */
  lemma {:induction false} MergeOverlayLeafWins(base: Tree, overlay: Tree, path: seq<string>)
    requires Lookup(Arr(overlay), path).Some? && !Lookup(Arr(overlay), path).value.Arr?
    ensures Lookup(Arr(MergeEnvironment(base, overlay)), path) == Lookup(Arr(overlay), path)
    decreases path
  {
    var k := path[0];
    if k in base && base[k].Arr? && overlay[k].Arr? {
      MergeOverlayLeafWins(base[k].m, overlay[k].m, path[1..]);
    }
  }

  /**
   * Merging never loses a path of the base unless the overlay puts a non-array
   * value on the way to it. Where the overlay has nothing at that path the merge
   * reads the base's value; where both hold an array there, it reads their merge.
   */
  lemma {:induction false} MergeKeepsBasePath(base: Tree, overlay: Tree, path: seq<string>)
    requires Lookup(Arr(base), path).Some?
    requires forall i :: 1 <= i < |path| ==>
               Lookup(Arr(overlay), path[..i]).None? || Lookup(Arr(overlay), path[..i]).value.Arr?
    ensures Lookup(Arr(MergeEnvironment(base, overlay)), path).Some?
    ensures Lookup(Arr(overlay), path).None? ==>
              Lookup(Arr(MergeEnvironment(base, overlay)), path) == Lookup(Arr(base), path)
    ensures Lookup(Arr(overlay), path).Some? && Lookup(Arr(overlay), path).value.Arr?
              && Lookup(Arr(base), path).value.Arr? ==>
              Lookup(Arr(MergeEnvironment(base, overlay)), path)
                == Some(Arr(MergeEnvironment(Lookup(Arr(base), path).value.m, Lookup(Arr(overlay), path).value.m)))
    decreases path
  {
    if path == [] {
      assert MergeEnvironment(base, overlay) == MergeEnvironment(Lookup(Arr(base), path).value.m, overlay);
    } else {
      var k := path[0];
      var merged := MergeEnvironment(base, overlay);
      assert k in base;
      if k !in overlay {
        assert merged[k] == base[k];
        assert Lookup(Arr(overlay), path).None?;
      } else if |path| > 1 {
        assert path[..1] == [k];
        assert Lookup(Arr(overlay), [k]) == Some(overlay[k]);
        assert overlay[k].Arr? && base[k].Arr?;
        forall i | 1 <= i < |path[1..]|
          ensures Lookup(Arr(overlay[k].m), path[1..][..i]).None?
               || Lookup(Arr(overlay[k].m), path[1..][..i]).value.Arr?
        {
          assert path[..i + 1][0] == k && path[..i + 1][1..] == path[1..][..i];
        }
        MergeKeepsBasePath(base[k].m, overlay[k].m, path[1..]);
        assert merged[k] == Arr(MergeEnvironment(base[k].m, overlay[k].m));
      } else {
        assert path[1..] == [];
        assert Lookup(Arr(overlay), path) == Some(overlay[k]);
        assert Lookup(Arr(merged), path) == Some(merged[k]);
      }
    }
  }

  /* -------------------------------------------------------------- cascade */

  /** After a fault the accumulator stays that fault. */
  lemma {:induction false} AccumulateFaultPersists<E>(read: Reader<E>, segments: seq<string>, group: string, n: nat, m: nat)
    requires n <= m <= |segments|
    requires Accumulate(read, segments, group, n).Err?
    ensures Accumulate(read, segments, group, m) == Accumulate(read, segments, group, n)
    decreases m - n
  {
    if n < m {
      AccumulateFaultPersists(read, segments, group, n, m - 1);
    }
  }

  /** The prefix `prefix` returned a tree holding `key`. */
  predicate Contributes<E>(read: Reader<E>, prefix: seq<string>, group: string, key: string) {
    var r := read(prefix, group);
    r.Ok? && r.value.Some? && key in r.value.value
  }

  /** The prefix `prefix` returned null or an empty array. */
  predicate ReadsEmpty<E>(read: Reader<E>, prefix: seq<string>, group: string) {
    read(prefix, group) == Ok(None) || read(prefix, group) == Ok(Some(map[]))
  }

  /** The accumulator holds exactly the keys some prefix contributed. */
  lemma {:induction false} AccumulateKeys<E>(read: Reader<E>, segments: seq<string>, group: string, n: nat, key: string)
    requires n <= |segments| && Accumulate(read, segments, group, n).Ok?
    ensures key in Accumulate(read, segments, group, n).value
        <==> exists k :: 1 <= k <= n && Contributes(read, segments[..k], group, key)
  {
    if n > 0 {
      AccumulateKeys(read, segments, group, n - 1, key);
      if Contributes(read, segments[..n], group, key) {
      } else if exists k :: 1 <= k <= n && Contributes(read, segments[..k], group, key) {
        var k :| 1 <= k <= n && Contributes(read, segments[..k], group, key);
        assert k < n;
      }
    }
  }

  /**
   * A more specific prefix overrides a less specific one: the last prefix that
   * supplies `key` with a non-array value decides the merged value.
   */
  lemma {:induction false} AccumulateLaterWins<E>(read: Reader<E>, segments: seq<string>, group: string,
                                                 k: nat, n: nat, key: string)
    requires 1 <= k <= n <= |segments|
    requires read(segments[..k], group).Ok? && read(segments[..k], group).value.Some?
    requires var t := read(segments[..k], group).value.value; key in t && !t[key].Arr?
    requires forall j :: k < j <= n ==> !Contributes(read, segments[..j], group, key)
    requires Accumulate(read, segments, group, n).Ok?
    ensures key in Accumulate(read, segments, group, n).value
    ensures Accumulate(read, segments, group, n).value[key] == read(segments[..k], group).value.value[key]
    decreases n
  {
    if n > k {
      AccumulateLaterWins(read, segments, group, k, n - 1, key);
    }
  }

  /**
   * The tree `t` leaves `path` alone in a merge: it holds nothing at `path` and
   * no non-array value on the way there.
   */
  predicate PassesOver(t: Tree, path: seq<string>) {
    Lookup(Arr(t), path).None?
    && forall i :: 1 <= i < |path| ==>
         Lookup(Arr(t), path[..i]).None? || Lookup(Arr(t), path[..i]).value.Arr?
  }

  /** The prefix `prefix` returned null, or a tree that leaves `path` alone. */
  predicate LeavesPath<E>(read: Reader<E>, prefix: seq<string>, group: string, path: seq<string>) {
    var r := read(prefix, group);
    r.Ok? && (r.value.Some? ==> PassesOver(r.value.value, path))
  }

  /**
   * A nested leaf (such as `db.host`) set by prefix `k` survives the cascade
   * when no later prefix reaches that path: the more specific value wins over
   * every earlier prefix, and later prefixes that do not mention it keep it.
   */
  lemma {:induction false} AccumulateLaterWinsPath<E>(read: Reader<E>, segments: seq<string>, group: string,
                                                     k: nat, n: nat, path: seq<string>)
    requires 1 <= k <= n <= |segments|
    requires read(segments[..k], group).Ok? && read(segments[..k], group).value.Some?
    requires var t := read(segments[..k], group).value.value;
             Lookup(Arr(t), path).Some? && !Lookup(Arr(t), path).value.Arr?
    requires forall j :: k < j <= n ==> LeavesPath(read, segments[..j], group, path)
    requires Accumulate(read, segments, group, n).Ok?
    ensures Lookup(Arr(Accumulate(read, segments, group, n).value), path)
         == Lookup(Arr(read(segments[..k], group).value.value), path)
    decreases n
  {
    var acc := Accumulate(read, segments, group, n - 1);
    assert acc.Ok?;
    if n == k {
      MergeOverlayLeafWins(acc.value, read(segments[..k], group).value.value, path);
    } else {
      AccumulateLaterWinsPath(read, segments, group, k, n - 1, path);
      assert LeavesPath(read, segments[..n], group, path);
      var r := read(segments[..n], group);
      if r.value.Some? {
        MergeKeepsBasePath(acc.value, r.value.value, path);
      }
    }
  }

  /** When every prefix yields null or an empty array, the accumulator stays empty. */
  lemma {:induction false} AccumulateAllEmpty<E>(read: Reader<E>, segments: seq<string>, group: string, n: nat)
    requires n <= |segments|
    requires forall k :: 1 <= k <= n ==> ReadsEmpty(read, segments[..k], group)
    ensures Accumulate(read, segments, group, n) == Ok(map[])
  {
    if n > 0 {
      AccumulateAllEmpty(read, segments, group, n - 1);
      assert ReadsEmpty(read, segments[..n], group);
      MergeIdentity(map[]);
    }
  }

  /** A reader that never faults gives an accumulator that never faults. */
  lemma {:induction false} AccumulateFaultFree<E>(read: Reader<E>, segments: seq<string>, group: string, n: nat)
    requires n <= |segments|
    requires forall k :: 1 <= k <= n ==> read(segments[..k], group).Ok?
    ensures Accumulate(read, segments, group, n).Ok?
  {
    if n > 0 {
      AccumulateFaultFree(read, segments, group, n - 1);
      assert read(segments[..n], group).Ok?;
    }
  }

  /** A loader whose `readConfig` never faults has a `load` that never faults. */
  lemma CascadeFaultFree<E>(read: Reader<E>, environment: Option<string>, group: string)
    requires forall prefix, g :: read(prefix, g).Ok?
    ensures Cascade(read, environment, group).Ok?
  {
    var segments := ParseEnvironment(environment);
    AccumulateFaultFree(read, segments, group, |segments|);
  }

  /**
   * `load` is null exactly when every prefix yields null or an empty array: an
   * empty accumulator is reported as null, a non-empty one as itself.
   */
  lemma CascadeNullIff<E>(read: Reader<E>, environment: Option<string>, group: string)
    requires var segments := ParseEnvironment(environment);
             forall k :: 1 <= k <= |segments| ==> read(segments[..k], group).Ok?
    ensures Cascade(read, environment, group).Ok?
    ensures var segments := ParseEnvironment(environment);
            Cascade(read, environment, group) == Ok(None)
            <==> forall k :: 1 <= k <= |segments| ==> ReadsEmpty(read, segments[..k], group)
    ensures Cascade(read, environment, group) != Ok(Some(map[]))
  {
    var segments := ParseEnvironment(environment);
    AccumulateFaultFree(read, segments, group, |segments|);
    if forall k :: 1 <= k <= |segments| ==> ReadsEmpty(read, segments[..k], group) {
      AccumulateAllEmpty(read, segments, group, |segments|);
    } else {
      var k :| 1 <= k <= |segments| && !ReadsEmpty(read, segments[..k], group);
      var t := read(segments[..k], group).value.value;
      var key :| key in t;
      AccumulateKeys(read, segments, group, |segments|, key);
    }
  }

  /**
   * With only the root segment (a null or empty environment) `load` is one
   * `readConfig` of `[""]`, its fault, or its result with an empty array read as null.
   */
  lemma CascadeRootOnly<E>(read: Reader<E>, environment: Option<string>, group: string)
    requires environment == None || environment == Some("")
    ensures Cascade(read, environment, group) ==
              match read([""], group)
              case Err(e) => Err(e)
              case Ok(None) => Ok(None)
              case Ok(Some(t)) => Ok(if t == map[] then None else Some(t))
  {
    var segments := ParseEnvironment(environment);
    assert segments[..1] == [""];
    assert Accumulate(read, segments, group, 0) == Ok(map[]);
    match read([""], group)
    case Err(_) =>
    case Ok(None) =>
      assert Accumulate(read, segments, group, 1) == Ok(map[]);
    case Ok(Some(t)) =>
      MergeIdentity(t);
      assert Accumulate(read, segments, group, 1) == Ok(t);
  }

  /** The backend of the worked example below: the root and the `staging` prefix answer. */
  function ExampleReader(staging: string): Reader<()> {
    (prefix: seq<string>, group: string) =>
      if prefix == [""] then Ok(Some(map["a" := Int(1), "b" := Int(1)]))
      else if prefix == ["", staging] then Ok(Some(map["b" := Int(2)]))
      else Ok(None)
  }

  /** An environment "<staging>.<east>" parses to the segments "", staging, east. */
  lemma ExampleSegments(staging: string, east: string)
    requires TruthyString(staging) && NoneOf(staging, EnvSeparators)
    requires TruthyString(east) && NoneOf(east, EnvSeparators)
    ensures ParseEnvironment(Some(staging + "." + east)) == ["", staging, east]
  {
    var names := [staging, east];
    assert names[1..] == [east];
    assert Join(names, ".") == staging + "." + east;
    ParseEnvironmentOfNames(names, '.');
  }

  /**
   * The worked example: in the environment "<staging>.<east>" the root
   * returns {a: 1, b: 1}, the `staging` prefix {b: 2} and the full prefix
   * nothing; the load is {a: 1, b: 2}.
   */
  lemma CascadeExample(staging: string, east: string, group: string)
    requires TruthyString(staging) && NoneOf(staging, EnvSeparators)
    requires TruthyString(east) && NoneOf(east, EnvSeparators)
    ensures Cascade(ExampleReader(staging), Some(staging + "." + east), group) == Ok(Some(map["a" := Int(1), "b" := Int(2)]))
  {
    var read := ExampleReader(staging);
    ExampleSegments(staging, east);
    var segments := ["", staging, east];
    assert segments[..1] == [""] && segments[..2] == ["", staging] && segments[..3] == segments;
    var root: Tree := map["a" := Int(1), "b" := Int(1)];
    var merged := MergeEnvironment(root, map["b" := Int(2)]);
    assert merged == map["a" := Int(1), "b" := Int(2)];
    MergeIdentity(root);
    assert read(segments[..1], group) == Ok(Some(root));
    assert Accumulate(read, segments, group, 1) == Ok(root);
    assert read(segments[..2], group) == Ok(Some(map["b" := Int(2)]));
    assert Accumulate(read, segments, group, 2) == Ok(merged);
    assert read(segments[..3], group) == Ok(None);
    assert Accumulate(read, segments, group, 3) == Ok(merged);
    assert "a" in merged;
    assert Cascade(read, Some(staging + "." + east), group) == Ok(Some(merged));
  }
}
