/**
 * The fragment of PHP's value model and string built-ins that the configuration
 * loaders and the repository rely on: arrays as string-keyed maps, PHP truthiness,
 * `isset`, dot-path navigation, `explode`/`preg_split`, `implode`, `array_filter`
 * on strings and `rtrim`.
 */
module Php {

  datatype Option<+T> = None | Some(value: T) {
    function GetOr(default: T): T {
      match this
      case Some(v) => v
      case None => default
    }
  }

  datatype Result<+T, +E> = Ok(value: T) | Err(error: E)

  /** A PHP value. Arrays are modelled as maps with string keys. */
  datatype Value = Null | Bool(b: bool) | Int(i: int) | Str(s: string) | Arr(m: map<string, Value>)

  /** A configuration tree: the array a loader returns for one group. */
  type Tree = map<string, Value>

  /** A string is falsy in PHP when it is empty or exactly "0". */
  predicate TruthyString(s: string) {
    s != "" && s != "0"
  }

  /** PHP's conversion to bool: null, false, 0, "", "0" and the empty array are falsy. */
  predicate Truthy(v: Value) {
    match v
    case Null => false
    case Bool(b) => b
    case Int(i) => i != 0
    case Str(s) => TruthyString(s)
    case Arr(m) => m != map[]
  }

  /** `isset($t[$k])`: the key is present and its value is not null. */
  predicate IsSet(t: Tree, k: string) {
    k in t && t[k] != Null
  }

  /**
   * Follows `path` through nested arrays: `None` as soon as a segment is missing
   * or a non-array value would have to be indexed further.
   */
  function Lookup(v: Value, path: seq<string>): Option<Value>
    decreases path
  {
    if path == [] then Some(v)
    else if v.Arr? && path[0] in v.m then Lookup(v.m[path[0]], path[1..])
    else None
  }

  /** No character of `s` is one of `seps`. */
  predicate NoneOf(s: string, seps: set<char>) {
    forall j :: 0 <= j < |s| ==> s[j] !in seps
  }

  /**
   * `explode` (one separator) and `preg_split` on a character class: the pieces
   * between separator characters, empty pieces included.
   */
  function Split(s: string, seps: set<char>): (parts: seq<string>)
    ensures |parts| >= 1
    ensures forall i :: 0 <= i < |parts| ==> NoneOf(parts[i], seps)
    decreases |s|
  {
    if s == [] then [""]
    else
      var rest := Split(s[1..], seps);
      if s[0] in seps then [""] + rest
      else [[s[0]] + rest[0]] + rest[1..]
  }

  /** `implode($sep, $parts)`. */
  function Join(parts: seq<string>, sep: string): string
    decreases |parts|
  {
    if parts == [] then ""
    else if |parts| == 1 then parts[0]
    else parts[0] + sep + Join(parts[1..], sep)
  }

  /** `array_filter` on a list of strings: the falsy strings "" and "0" are dropped. */
  function FilterTruthy(parts: seq<string>): (kept: seq<string>)
    ensures forall i :: 0 <= i < |kept| ==> TruthyString(kept[i]) && kept[i] in parts
    ensures |kept| <= |parts|
    decreases |parts|
  {
    if parts == [] then []
    else if TruthyString(parts[0]) then [parts[0]] + FilterTruthy(parts[1..])
    else FilterTruthy(parts[1..])
  }

  /** `rtrim($s, $c)` for a one-character list: removes every trailing `c`. */
  function RTrim(s: string, c: char): (t: string)
    ensures |t| <= |s| && t == s[..|t|]
    ensures forall j :: |t| <= j < |s| ==> s[j] == c
    ensures t == [] || t[|t| - 1] != c
    decreases |s|
  {
    if s != [] && s[|s| - 1] == c then RTrim(s[..|s| - 1], c) else s
  }

  /* ---------------------------------------------------------------- lemmas */

  /** A piece without separators splits to itself. */
  lemma {:induction false} SplitNoSeparator(s: string, seps: set<char>)
    requires NoneOf(s, seps)
    ensures Split(s, seps) == [s]
    decreases |s|
  {
    if s != [] {
      assert NoneOf(s[1..], seps) by {
        forall j | 0 <= j < |s[1..]| ensures s[1..][j] !in seps {
          assert s[1..][j] == s[j + 1];
        }
      }
      SplitNoSeparator(s[1..], seps);
      assert s[0] !in seps;
      assert [s[0]] + s[1..] == s;
    }
  }

  /** Splitting distributes over a separator character. */
  lemma {:induction false} SplitAppend(a: string, c: char, b: string, seps: set<char>)
    requires c in seps
    ensures Split(a + [c] + b, seps) == Split(a, seps) + Split(b, seps)
    decreases |a|
  {
    var s := a + [c] + b;
    if a == [] {
      assert s[0] == c && s[1..] == b;
    } else {
      assert s[0] == a[0] && s[1..] == a[1..] + [c] + b;
      SplitAppend(a[1..], c, b, seps);
      var ra := Split(a[1..], seps);
      if a[0] !in seps {
        assert (ra + Split(b, seps))[0] == ra[0];
        assert (ra + Split(b, seps))[1..] == ra[1..] + Split(b, seps);
      }
    }
  }

  /** `implode` of the pieces of `explode` gives back the string. */
  lemma {:induction false} JoinSplit(s: string, c: char)
    ensures Join(Split(s, {c}), [c]) == s
    decreases |s|
  {
    if s != [] {
      var rest := Split(s[1..], {c});
      JoinSplit(s[1..], c);
      if s[0] == c {
        assert Split(s, {c}) == [""] + rest;
        assert ([""] + rest)[1..] == rest;
      } else {
        JoinPrepend([s[0]], rest, [c]);
        assert [s[0]] + s[1..] == s;
      }
    }
  }

  /** Prefixing the first piece prefixes the joined string. */
  lemma JoinPrepend(a: string, parts: seq<string>, sep: string)
    requires |parts| >= 1
    ensures Join([a + parts[0]] + parts[1..], sep) == a + Join(parts, sep)
  {
    var q := [a + parts[0]] + parts[1..];
    assert q[1..] == parts[1..];
  }

  /** `explode` of `implode` gives back the pieces when no piece holds a separator. */
  lemma {:induction false} SplitJoin(parts: seq<string>, c: char, seps: set<char>)
    requires |parts| >= 1 && c in seps
    requires forall i :: 0 <= i < |parts| ==> NoneOf(parts[i], seps)
    ensures Split(Join(parts, [c]), seps) == parts
    decreases |parts|
  {
    if |parts| == 1 {
      SplitNoSeparator(parts[0], seps);
    } else {
      SplitNoSeparator(parts[0], seps);
      SplitJoin(parts[1..], c, seps);
      SplitAppend(parts[0], c, Join(parts[1..], [c]), seps);
      assert [parts[0]] + parts[1..] == parts;
    }
  }

  /** `array_filter` distributes over concatenation. */
  lemma {:induction false} FilterAppend(a: seq<string>, b: seq<string>)
    ensures FilterTruthy(a + b) == FilterTruthy(a) + FilterTruthy(b)
    decreases |a|
  {
    if a == [] {
      assert a + b == b;
    } else {
      assert (a + b)[0] == a[0] && (a + b)[1..] == a[1..] + b;
      FilterAppend(a[1..], b);
    }
  }

  /** `array_filter` keeps a list of truthy strings unchanged. */
  lemma {:induction false} FilterAllTruthy(parts: seq<string>)
    requires forall i :: 0 <= i < |parts| ==> TruthyString(parts[i])
    ensures FilterTruthy(parts) == parts
    decreases |parts|
  {
    if parts != [] {
      FilterAllTruthy(parts[1..]);
    }
  }
}
