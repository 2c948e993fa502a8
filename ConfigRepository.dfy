/**
 * `Config\Repository`: dot-notation access to configuration groups. Groups are
 * loaded lazily through a loader and cached in `items`; values written with
 * `set` go to a separate override layer `setItems`, consulted first by `get`.
 * A key "app.sub.item" names the group "app" (the text before the first dot)
 * and the path "sub", "item" inside it.
 */
module ConfigRepository {
  import opened Php
  import LoaderAbstract
  import FileLoader
  import NullLoader
  import LdapLoader
  import ConfigFileLoader
  import LdapConnection

  /** A loader's fault: only the LDAP loader has any, the exceptions of the connection. */
  type Fault = LdapConnection.LdapError

  const KeySeparator: char := '.'
  const KeySeparators: set<char> := {KeySeparator}

  /* -------------------------------------------------------------- loaders */

  /**
   * The loaders of this model that a repository can be given. The older
   * stand-alone file loader is included although the repository's type hint
   * refuses it, since it does not implement the loader interface.
   */
  datatype Backend =
    | NullBackend
    | FileBackend(file: FileLoader.Loader)
    | LdapBackend(ldap: LdapLoader.Loader)
    | LegacyFileBackend(legacy: ConfigFileLoader.Loader)

  /** `$this->loader->load($environment, $group)`. */
  function BackendLoad(loader: Backend, environment: Option<string>, group: string): Result<Option<Tree>, Fault> {
    match loader
    case NullBackend => Ok(NullLoader.Load(environment, group))
    case FileBackend(l) => Ok(FileLoader.Load(l, environment, group))
    case LdapBackend(l) => LdapLoader.Load(l, environment, group)
    case LegacyFileBackend(l) => Ok(ConfigFileLoader.LoadSpec(l, environment, group))
  }

  /** Runs the loader's own `load` loop. */
  method LoadFromBackend(loader: Backend, environment: Option<string>, group: string)
    returns (r: Result<Option<Tree>, Fault>)
    ensures r == BackendLoad(loader, environment, group)
  {
    match loader
    case NullBackend =>
      var loaded, calls := LoaderAbstract.Load(NullLoader.Read(), environment, group);
      LoaderAbstract.CascadeFaultFree(NullLoader.Read(), environment, group);
      r := Ok(loaded.value);
    case FileBackend(l) =>
      var loaded, calls := LoaderAbstract.Load(FileLoader.Read(l), environment, group);
      LoaderAbstract.CascadeFaultFree(FileLoader.Read(l), environment, group);
      r := Ok(loaded.value);
    case LdapBackend(l) =>
      var calls;
      r, calls := LoaderAbstract.Load(LdapLoader.Read(l), environment, group);
    case LegacyFileBackend(l) =>
      var loaded, candidates := ConfigFileLoader.Load(l, environment, group);
      r := Ok(loaded);
  }

  /* ----------------------------------------------------------------- keys */

  predicate DotFree(s: string) {
    NoneOf(s, KeySeparators)
  }

  /** Every top-level key is a group name, which never holds a dot. */
  predicate GroupKeyed(t: Tree) {
    forall k :: k in t ==> DotFree(k)
  }

  /** `strpos($s, $c)` for one character: the first position of `c`, if any. */
  function Strpos(s: string, c: char): (p: Option<nat>)
    ensures p.None? <==> c !in s
    ensures p.Some? ==> p.value < |s| && s[p.value] == c && c !in s[..p.value]
    decreases |s|
  {
    if s == [] then None
    else if s[0] == c then Some(0)
    else
      match Strpos(s[1..], c)
      case None => None
      case Some(i) =>
        assert s[..i + 1] == [s[0]] + s[1..][..i];
        Some(i + 1)
  }

  /** `parseKey`: the group before the first dot and the rest of the key, or the whole key and null. */
  function ParseKey(key: string): (parsed: (string, Option<string>))
    ensures DotFree(parsed.0)
    ensures KeySeparator !in key ==> parsed == (key, None)
    ensures KeySeparator in key ==> parsed.1.Some? && key == parsed.0 + [KeySeparator] + parsed.1.value
  {
    match Strpos(key, KeySeparator)
    case None => (key, None)
    case Some(p) =>
      assert key == key[..p] + [KeySeparator] + key[p + 1..];
      (key[..p], Some(key[p + 1..]))
  }

  /* ------------------------------------------------------------- arrayGet */

  /** `arrayGet`: the whole array, the literal entry when it is set, else the value along the dot path. */
  function ArrayGetSpec(tree: Tree, key: Option<string>, default: Value): Value {
    match key
    case None => Arr(tree)
    case Some(k) =>
      if IsSet(tree, k) then tree[k]
      else
        match Lookup(Arr(tree), Split(k, KeySeparators))
        case Some(v) => v
        case None => default
  }

  /**
   * `arrayGet`: the `foreach` over the segments walks down the nested arrays
   * and gives up with the default at a missing key or a non-array.
   */
  method ArrayGet(tree: Tree, key: Option<string>, default: Value) returns (r: Value)
    ensures r == ArrayGetSpec(tree, key, default)
  {
    if key.None? {
      return Arr(tree);
    }
    if IsSet(tree, key.value) {
      return tree[key.value];
    }
    var segments := Split(key.value, KeySeparators);
    var current := Arr(tree);
    var i := 0;
    while i < |segments|
      invariant 0 <= i <= |segments|
      invariant Lookup(Arr(tree), segments) == Lookup(current, segments[i..])
    {
      var segment := segments[i];
      if !current.Arr? || segment !in current.m {
        return default;
      }
      assert segments[i..][1..] == segments[i + 1..];
      current := current.m[segment];
      i := i + 1;
    }
    r := current;
  }

  /* ------------------------------------------------------------- arraySet */

  /** The array a value stands for when it is written into: itself, or a fresh one. */
  function Base(v: Value): Tree {
    if v.Arr? then v.m else map[]
  }

  /**
   * Whether `$v[$k] = ...` writes into `v`: arrays, and null and false, which
   * PHP turns into a new array; any other scalar is left as it was.
   */
  predicate Writable(v: Value) {
    v.Arr? || v == Null || v == Bool(false)
  }

  /** The intermediate entry `arraySet` descends into: kept when it is an array, `array()` otherwise. */
  function Child(m: Tree, k: string): (c: Value)
    ensures c.Arr?
  {
    if k in m && m[k].Arr? then m[k] else Arr(map[])
  }

  /** `arraySet` along the segments `keys`, writing `value` at the last one. */
  function SetPath(target: Value, keys: seq<string>, value: Value): Value
    requires |keys| >= 1
    decreases |keys|
  {
    if !Writable(target) then target
    else
      var m := Base(target);
      if |keys| == 1 then Arr(m[keys[0] := value])
      else Arr(m[keys[0] := SetPath(Child(m, keys[0]), keys[1..], value)])
  }

  /** `arraySet($array, $key, $value)`: a null key replaces the whole array. */
  function ArraySetSpec(target: Value, key: Option<string>, value: Value): Value {
    match key
    case None => value
    case Some(k) => SetPath(target, Split(k, KeySeparators), value)
  }

  /**
   * `arraySet`: the `while` loop moves a reference down the segments,
   * creating arrays as it goes, and the final assignment writes through it.
   * Here the first loop records the array at every depth (`chain`) and the
   * second writes each level back into its parent, which is the effect the
   * writes through the reference have.
   */
  method ArraySet(target: Value, key: Option<string>, value: Value) returns (r: Value)
    ensures r == ArraySetSpec(target, key, value)
  {
    if key.None? {
      return value;
    }
    var keys := Split(key.value, KeySeparators);
    if !Writable(target) {
      return target;
    }
    var chain: seq<Tree> := [Base(target)];
    var i := 0;
    while i < |keys| - 1
      invariant 0 <= i <= |keys| - 1
      invariant |chain| == i + 1 && chain[0] == Base(target)
      invariant forall j :: 0 <= j < i ==> Arr(chain[j + 1]) == Child(chain[j], keys[j])
    {
      chain := chain + [Child(chain[i], keys[i]).m];
      i := i + 1;
    }
    var n := |keys| - 1;
    r := Arr(chain[n][keys[n] := value]);
    assert keys[n..] == [keys[n]];
    var j := n;
    while j > 0
      invariant 0 <= j <= n
      invariant r == SetPath(Arr(chain[j]), keys[j..], value)
    {
      j := j - 1;
      SetPathStep(chain[j], keys[j..], value);
      assert keys[j..][1..] == keys[j + 1..];
      r := Arr(chain[j][keys[j] := r]);
    }
    SetPathOfBase(target, keys, value);
  }

  /** Below the top, `SetPath` writes the result for the rest of the path into the next level. */
  lemma SetPathStep(m: Tree, keys: seq<string>, value: Value)
    requires |keys| >= 2
    ensures SetPath(Arr(m), keys, value) == Arr(m[keys[0] := SetPath(Child(m, keys[0]), keys[1..], value)])
  {
  }

  /** Writing into null or false is writing into a new array. */
  lemma SetPathOfBase(target: Value, keys: seq<string>, value: Value)
    requires |keys| >= 1 && Writable(target)
    ensures SetPath(target, keys, value) == SetPath(Arr(Base(target)), keys, value)
  {
  }

  /* ------------------------------------------------------ the repository */

  /**
   * `set`: the group's override (a new array when there is none) with the
   * value written at the rest of the key.
   */
  function SetSpec(setItems: Tree, key: string, value: Value): Tree {
    var (group, item) := ParseKey(key);
    var target := if IsSet(setItems, group) then setItems[group] else Arr(map[]);
    setItems[group := ArraySetSpec(target, item, value)]
  }

  /**
   * `load($group)`: nothing happens when the group is already cached;
   * otherwise the loader is asked and a truthy result is cached.
   */
  function LoadGroup(loader: Backend, environment: Option<string>, items: Tree, group: string): Result<Tree, Fault> {
    if IsSet(items, group) then Ok(items)
    else
      match BackendLoad(loader, environment, group)
      case Err(e) => Err(e)
      case Ok(None) => Ok(items)
      case Ok(Some(t)) => Ok(if Truthy(Arr(t)) then items[group := Arr(t)] else items)
  }

  /** What `get` returns and the cache it leaves behind. */
  datatype Answer = Answer(result: Result<Value, Fault>, items: Tree)

  /** The second half of `get`: load the key's group, then look the key up in the cache. */
  function LoadThenGet(loader: Backend, environment: Option<string>, items: Tree, key: string, default: Value): Answer {
    match LoadGroup(loader, environment, items, ParseKey(key).0)
    case Err(e) => Answer(Err(e), items)
    case Ok(loaded) => Answer(Ok(ArrayGetSpec(loaded, Some(key), default)), loaded)
  }

  /** `get`: a truthy override (or truthy default) is returned at once; anything else falls through. */
  function GetAnswer(loader: Backend, environment: Option<string>, items: Tree, setItems: Tree,
                     key: string, default: Value): Answer
  {
    var overridden := ArrayGetSpec(setItems, Some(key), default);
    if Truthy(overridden) then Answer(Ok(overridden), items)
    else LoadThenGet(loader, environment, items, key, default)
  }

  /** `has`: `get` with a null default is not null. */
  function HasAnswer(a: Answer): Result<bool, Fault> {
    match a.result
    case Err(e) => Err(e)
    case Ok(v) => Ok(v != Null)
  }

  class Repository {
    var loader: Backend
    const environment: Option<string>
    var items: Tree
    var setItems: Tree

    /**
     * Every override is filed under a dot-free group name, as `set` files it.
     * `items` is not constrained: a subclass may call the protected `load` with any group name.
     */
    ghost predicate Valid()
      reads this
    {
      GroupKeyed(setItems)
    }

    /** `__construct`: both layers start empty. */
    constructor (loader: Backend, environment: Option<string>)
      ensures this.loader == loader && this.environment == environment
      ensures items == map[] && setItems == map[]
      ensures Valid()
    {
      this.loader := loader;
      this.environment := environment;
      items := map[];
      setItems := map[];
    }

    /** `has`. */
    method Has(key: string) returns (r: Result<bool, Fault>)
      modifies this`items
      ensures var a := GetAnswer(loader, environment, old(items), setItems, key, Null);
              r == HasAnswer(a) && items == a.items
    {
      var v := Get(key, Null);
      r := match v case Err(e) => Err(e) case Ok(x) => Ok(x != Null);
    }

    /** `get`: a fault of the loader propagates, leaving the cache as it was. */
    method Get(key: string, default: Value) returns (r: Result<Value, Fault>)
      modifies this`items
      ensures Answer(r, items) == GetAnswer(loader, environment, old(items), setItems, key, default)
    {
      var value := ArrayGet(setItems, Some(key), default);
      if Truthy(value) {
        return Ok(value);
      }
      var group := ParseKey(key).0;
      var fault := Load(group);
      if fault.Some? {
        return Err(fault.value);
      }
      var found := ArrayGet(items, Some(key), default);
      r := Ok(found);
    }

    /** `set`: only the override layer changes. */
    method Set(key: string, value: Value)
      requires Valid()
      modifies this`setItems
      ensures setItems == SetSpec(old(setItems), key, value)
      ensures Valid()
    {
      var (group, item) := ParseKey(key);
      if !IsSet(setItems, group) {
        setItems := setItems[group := Arr(map[])];
      }
      var updated := ArraySet(setItems[group], item, value);
      setItems := setItems[group := updated];
      SetTouchesOnlyGroup(old(setItems), key, value);
    }

    /** `load`: `fault` is the loader's exception, if it threw one. */
    method Load(group: string) returns (fault: Option<Fault>)
      modifies this`items
      ensures match LoadGroup(loader, environment, old(items), group)
              case Err(e) => fault == Some(e) && items == old(items)
              case Ok(loaded) => fault == None && items == loaded
    {
      if IsSet(items, group) {
        return None;
      }
      var loaded := LoadFromBackend(loader, environment, group);
      match loaded {
        case Err(e) =>
          return Some(e);
        case Ok(None) =>
          return None;
        case Ok(Some(t)) =>
          if Truthy(Arr(t)) {
            items := items[group := Arr(t)];
          }
          return None;
      }
    }

    /** `getLoader`. */
    method GetLoader() returns (l: Backend)
      ensures l == loader
    {
      l := loader;
    }

    /** `setLoader`: the cache is kept, so groups already loaded are not reloaded from the new loader. */
    method SetLoader(l: Backend)
      modifies this`loader
      ensures loader == l
    {
      loader := l;
    }

    /** `getEnvironment`. */
    method GetEnvironment() returns (e: Option<string>)
      ensures e == environment
    {
      e := environment;
    }

    /** `getItems`: the loaded groups, overrides not included. */
    method GetItems() returns (t: Tree)
      ensures t == items
    {
      t := items;
    }

    /** `offsetExists` is `has`. */
    method OffsetExists(key: string) returns (r: Result<bool, Fault>)
      modifies this`items
      ensures var a := GetAnswer(loader, environment, old(items), setItems, key, Null);
              r == HasAnswer(a) && items == a.items
    {
      r := Has(key);
    }

    /** `offsetGet` is `get` with a null default. */
    method OffsetGet(key: string) returns (r: Result<Value, Fault>)
      modifies this`items
      ensures Answer(r, items) == GetAnswer(loader, environment, old(items), setItems, key, Null)
    {
      r := Get(key, Null);
    }

    /** `offsetSet` is `set`. */
    method OffsetSet(key: string, value: Value)
      requires Valid()
      modifies this`setItems
      ensures setItems == SetSpec(old(setItems), key, value)
      ensures Valid()
    {
      Set(key, value);
    }

    /** `offsetUnset` writes null as the override. */
    method OffsetUnset(key: string)
      requires Valid()
      modifies this`setItems
      ensures setItems == SetSpec(old(setItems), key, Null)
      ensures Valid()
    {
      Set(key, Null);
    }
  }

  /* ------------------------------------------------------- lemmas: keys */

  /** The first dot of "group.rest", for a dot-free group, is the one after the group. */
  lemma {:induction false} StrposAfterGroup(group: string, rest: string)
    requires DotFree(group)
    ensures Strpos(group + [KeySeparator] + rest, KeySeparator) == Some(|group|)
    decreases |group|
  {
    var key := group + [KeySeparator] + rest;
    if group != [] {
      assert key[0] == group[0] && group[0] != KeySeparator;
      assert key[1..] == group[1..] + [KeySeparator] + rest;
      StrposAfterGroup(group[1..], rest);
    }
  }

  /** A key built from a group and a rest parses back to them. */
  lemma ParseKeyRoundTrip(group: string, rest: string)
    requires DotFree(group)
    ensures ParseKey(group + [KeySeparator] + rest) == (group, Some(rest))
  {
    var key := group + [KeySeparator] + rest;
    StrposAfterGroup(group, rest);
    assert key[..|group|] == group && key[|group| + 1..] == rest;
  }

  /** A key without a dot is a whole group. */
  lemma ParseKeyGroupOnly(key: string)
    requires DotFree(key)
    ensures ParseKey(key) == (key, None)
  {
    assert forall j :: 0 <= j < |key| ==> key[j] != KeySeparator;
    assert KeySeparator !in key;
  }

  /** The segments of "group.rest" are the group followed by the segments of the rest. */
  lemma KeySegments(group: string, rest: string)
    requires DotFree(group)
    ensures Split(group + [KeySeparator] + rest, KeySeparators) == [group] + Split(rest, KeySeparators)
  {
    SplitAppend(group, KeySeparator, rest, KeySeparators);
    SplitNoSeparator(group, KeySeparators);
  }

  /** The segments of a whole-group key are the group alone. */
  lemma GroupSegments(group: string)
    requires DotFree(group)
    ensures Split(group, KeySeparators) == [group]
  {
    SplitNoSeparator(group, KeySeparators);
  }

  /* ---------------------------------------------------- lemmas: arraySet */

  /** The value written is found along its path. */
  lemma {:induction false} SetPathFinds(target: Value, keys: seq<string>, value: Value)
    requires |keys| >= 1 && Writable(target)
    ensures Lookup(SetPath(target, keys, value), keys) == Some(value)
    decreases |keys|
  {
    var m := Base(target);
    if |keys| > 1 {
      SetPathFinds(Child(m, keys[0]), keys[1..], value);
    }
  }

  /** Every level above the written value is an array afterwards, whatever held that place before. */
  lemma {:induction false} SetPathBuildsArrays(target: Value, keys: seq<string>, value: Value, i: nat)
    requires 1 <= i < |keys| && Writable(target)
    ensures Lookup(SetPath(target, keys, value), keys[..i]).Some?
    ensures Lookup(SetPath(target, keys, value), keys[..i]).value.Arr?
    decreases i
  {
    var m := Base(target);
    var child := Child(m, keys[0]);
    assert keys[..i][0] == keys[0] && keys[..i][1..] == keys[1..][..i - 1];
    if i > 1 {
      SetPathBuildsArrays(child, keys[1..], value, i - 1);
    } else {
      assert keys[1..][..0] == [];
    }
  }

  /**
   * A path that leaves the written path at some depth reads the same
   * afterwards as before: siblings of every level are left alone.
   */
  lemma {:induction false} SetPathKeepsDiverging(target: Value, keys: seq<string>, value: Value, path: seq<string>, i: nat)
    requires i < |keys| && i < |path| && path[..i] == keys[..i] && path[i] != keys[i]
    requires Lookup(target, path).Some?
    ensures Lookup(SetPath(target, keys, value), path) == Lookup(target, path)
    decreases i
  {
    var m := target.m;
    if i > 0 {
      assert path[0] == path[..i][0] && keys[0] == keys[..i][0];
      var child := m[path[0]];
      assert Lookup(child, path[1..]).Some?;
      assert path[1..][0] == path[1];
      assert child.Arr?;
      assert Child(m, keys[0]) == child;
      assert path[1..][..i - 1] == path[..i][1..] && keys[1..][..i - 1] == keys[..i][1..];
      SetPathKeepsDiverging(child, keys[1..], value, path[1..], i - 1);
    }
  }

  /** Writing adds at most the first segment at the top and keeps every other top-level entry. */
  lemma SetPathTopLevel(target: Value, keys: seq<string>, value: Value)
    requires |keys| >= 1 && Writable(target)
    ensures SetPath(target, keys, value).Arr?
    ensures SetPath(target, keys, value).m.Keys == Base(target).Keys + {keys[0]}
    ensures forall k :: k in Base(target) && k != keys[0] ==> SetPath(target, keys, value).m[k] == Base(target)[k]
  {
  }

  /* ------------------------------------------------------- lemmas: set */

  /** `set` changes the override of the key's group only, and keeps the group keys dot-free. */
  lemma SetTouchesOnlyGroup(setItems: Tree, key: string, value: Value)
    ensures var group := ParseKey(key).0;
            && SetSpec(setItems, key, value).Keys == setItems.Keys + {group}
            && forall g :: g in setItems && g != group ==> SetSpec(setItems, key, value)[g] == setItems[g]
    ensures GroupKeyed(setItems) ==> GroupKeyed(SetSpec(setItems, key, value))
  {
  }

  /** A loaded group is cached under its dot-free name. */
  lemma LoadKeepsGroupKeyed(loader: Backend, environment: Option<string>, items: Tree, group: string)
    requires GroupKeyed(items) && DotFree(group)
    ensures LoadGroup(loader, environment, items, group).Ok? ==> GroupKeyed(LoadGroup(loader, environment, items, group).value)
  {
  }

  /**
   * The override a `set` leaves is what `arrayGet` finds for the same key in
   * the override layer.
   */
  lemma OverrideAfterSet(setItems: Tree, key: string, value: Value, default: Value)
    requires GroupKeyed(setItems)
    requires var (group, item) := ParseKey(key);
             item.Some? && IsSet(setItems, group) ==> Writable(setItems[group])
    ensures ArrayGetSpec(SetSpec(setItems, key, value), Some(key), default) == value
  {
    var (group, item) := ParseKey(key);
    var after := SetSpec(setItems, key, value);
    SetTouchesOnlyGroup(setItems, key, value);
    if item.None? {
      OverrideAfterSetGroup(setItems, group, value, default);
    } else {
      var rest := item.value;
      var target := if IsSet(setItems, group) then setItems[group] else Arr(map[]);
      assert key == group + [KeySeparator] + rest;
      assert after[group] == SetPath(target, Split(rest, KeySeparators), value);
      DotKeyReadsInsideGroup(after, group, rest, default);
      SetPathFinds(target, Split(rest, KeySeparators), value);
    }
  }

  /** A whole group set as an override reads back as that value. */
  lemma OverrideAfterSetGroup(setItems: Tree, group: string, value: Value, default: Value)
    requires DotFree(group)
    ensures ArrayGetSpec(setItems[group := value], Some(group), default) == value
  {
    GroupSegments(group);
    var after := setItems[group := value];
    assert [group][1..] == [];
    assert Lookup(Arr(after), [group]) == Lookup(value, []);
  }

  /* ------------------------------------------------------- lemmas: get */

  /**
   * After `set(key, value)` with a truthy value, `get(key)` returns the value
   * without consulting the loader.
   */
  lemma SetThenGet(loader: Backend, environment: Option<string>, items: Tree, setItems: Tree,
                   key: string, value: Value, default: Value)
    requires GroupKeyed(setItems) && Truthy(value)
    requires var (group, item) := ParseKey(key);
             item.Some? && IsSet(setItems, group) ==> Writable(setItems[group])
    ensures GetAnswer(loader, environment, items, SetSpec(setItems, key, value), key, default) == Answer(Ok(value), items)
  {
    OverrideAfterSet(setItems, key, value, default);
  }

  /**
   * A falsy override (false, 0, "", "0", array() or null) does not mask the
   * loaded value: `get(key)` and `has(key)` answer from the loaded group as if
   * nothing had been set.
   */
  lemma FalsySetThenGet(loader: Backend, environment: Option<string>, items: Tree, setItems: Tree, key: string, value: Value)
    requires GroupKeyed(setItems)
    requires var (group, item) := ParseKey(key);
             item.Some? && IsSet(setItems, group) ==> Writable(setItems[group])
    requires !Truthy(value)
    ensures GetAnswer(loader, environment, items, SetSpec(setItems, key, value), key, Null)
         == LoadThenGet(loader, environment, items, key, Null)
  {
    OverrideAfterSet(setItems, key, value, Null);
  }

  /**
   * After `unset(key)`, which writes null, `get(key)` and `has(key)` answer
   * from the loaded group as if nothing had been set.
   */
  lemma UnsetThenGet(loader: Backend, environment: Option<string>, items: Tree, setItems: Tree, key: string)
    requires GroupKeyed(setItems)
    requires var (group, item) := ParseKey(key);
             item.Some? && IsSet(setItems, group) ==> Writable(setItems[group])
    ensures GetAnswer(loader, environment, items, SetSpec(setItems, key, Null), key, Null)
         == LoadThenGet(loader, environment, items, key, Null)
  {
    FalsySetThenGet(loader, environment, items, setItems, key, Null);
  }

  /**
   * With no override for the key, a truthy default is returned as is: the
   * loader is not asked and the cache is not touched.
   */
  lemma TruthyDefaultShortCircuits(loader: Backend, environment: Option<string>, items: Tree, setItems: Tree,
                                   key: string, default: Value)
    requires !IsSet(setItems, key) && Lookup(Arr(setItems), Split(key, KeySeparators)).None?
    requires Truthy(default)
    ensures GetAnswer(loader, environment, items, setItems, key, default) == Answer(Ok(default), items)
  {
  }

  /** A cached group is never reloaded, whichever loader the repository holds by then. */
  lemma CachedGroupNotReloaded(loader: Backend, environment: Option<string>, items: Tree, group: string)
    requires IsSet(items, group)
    ensures LoadGroup(loader, environment, items, group) == Ok(items)
  {
  }

  /**
   * Only a truthy load is cached: a null or empty result leaves the group
   * unloaded, so the next `get` asks the loader again.
   */
  lemma LoadGroupCachesTruthy(loader: Backend, environment: Option<string>, items: Tree, group: string)
    requires !IsSet(items, group) && BackendLoad(loader, environment, group).Ok?
    ensures var loaded := LoadGroup(loader, environment, items, group);
            && loaded.Ok?
            && (IsSet(loaded.value, group) <==> BackendLoad(loader, environment, group).value.Some?
                                                && BackendLoad(loader, environment, group).value.value != map[])
            && (IsSet(loaded.value, group) ==> loaded.value == items[group := Arr(BackendLoad(loader, environment, group).value.value)])
            && (!IsSet(loaded.value, group) ==> loaded.value == items)
  {
  }

  /** Asking twice gives the same answer and the same cache: a second `get` has nothing left to load. */
  lemma GetTwiceIsStable(loader: Backend, environment: Option<string>, items: Tree, setItems: Tree,
                         key: string, default: Value)
    ensures var first := GetAnswer(loader, environment, items, setItems, key, default);
            first.result.Ok? ==> GetAnswer(loader, environment, first.items, setItems, key, default) == first
  {
  }

  /**
   * For a key "group.rest" with no truthy override, `get` loads the group
   * once and reads the rest of the key inside what was loaded.
   */
  lemma GetReadsLoadedGroup(loader: Backend, environment: Option<string>, items: Tree, setItems: Tree,
                            group: string, rest: string, default: Value, t: Tree)
    requires DotFree(group) && GroupKeyed(items) && !IsSet(items, group)
    requires !Truthy(ArrayGetSpec(setItems, Some(group + [KeySeparator] + rest), default))
    requires BackendLoad(loader, environment, group) == Ok(Some(t)) && t != map[]
    ensures GetAnswer(loader, environment, items, setItems, group + [KeySeparator] + rest, default)
         == Answer(Ok(match Lookup(Arr(t), Split(rest, KeySeparators)) case Some(v) => v case None => default),
                   items[group := Arr(t)])
  {
    ParseKeyRoundTrip(group, rest);
    var loaded := items[group := Arr(t)];
    assert LoadGroup(loader, environment, items, group) == Ok(loaded);
    DotKeyReadsInsideGroup(loaded, group, rest, default);
  }

  /**
   * A key "group.rest" never names a top-level entry: it is read inside the
   * group's own array along the segments of the rest.
   */
  lemma DotKeyReadsInsideGroup(tree: Tree, group: string, rest: string, default: Value)
    requires DotFree(group) && GroupKeyed(tree) && group in tree
    ensures ArrayGetSpec(tree, Some(group + [KeySeparator] + rest), default)
         == match Lookup(tree[group], Split(rest, KeySeparators)) case Some(v) => v case None => default
  {
    var key := group + [KeySeparator] + rest;
    KeySegments(group, rest);
    assert !DotFree(key) by {
      assert key[|group|] == KeySeparator;
    }
    assert key !in tree;
    var segments := Split(key, KeySeparators);
    assert segments[1..] == Split(rest, KeySeparators);
  }

  /* --------------------------------------------------- the repository tests */

  /** The override layer after `set(group.rest, 1)` on an empty one: `group` holds an array. */
  lemma SetOnEmpty(group: string, rest: string, value: Value)
    requires DotFree(group)
    ensures var after := SetSpec(map[], group + [KeySeparator] + rest, value);
            GroupKeyed(after) && group in after && after[group].Arr?
  {
    var key := group + [KeySeparator] + rest;
    ParseKeyRoundTrip(group, rest);
    SetTouchesOnlyGroup(map[], key, value);
    SetPathTopLevel(Arr(map[]), Split(rest, KeySeparators), value);
  }

  /**
   * `isset`, assignment and `unset` through array access: a key the loaded
   * group lacks is absent, present after being set to 1, and absent again
   * after `unset`, since the null override falls through to the loaded group.
   */
  method IssetScenario(loader: Backend, environment: Option<string>, group: string, rest: string, t: Tree)
    returns (before: Result<bool, Fault>, afterSet: Result<bool, Fault>, afterUnset: Result<bool, Fault>)
    requires DotFree(group)
    requires BackendLoad(loader, environment, group) == Ok(Some(t)) && t != map[]
    requires Lookup(Arr(t), Split(rest, KeySeparators)).None?
    ensures before == Ok(false) && afterSet == Ok(true) && afterUnset == Ok(false)
  {
    var key := group + [KeySeparator] + rest;
    var repo := new Repository(loader, environment);
    GetReadsLoadedGroup(loader, environment, map[], map[], group, rest, Null, t);
    before := repo.OffsetExists(key);

    repo.OffsetSet(key, Int(1));
    SetThenGet(loader, environment, repo.items, map[], key, Int(1), Null);
    afterSet := repo.OffsetExists(key);

    var set1 := repo.setItems;
    SetOnEmpty(group, rest, Int(1));
    ParseKeyRoundTrip(group, rest);
    repo.OffsetUnset(key);
    UnsetThenGet(loader, environment, repo.items, set1, key);
    assert LoadGroup(loader, environment, repo.items, group) == Ok(repo.items);
    DotKeyReadsInsideGroup(repo.items, group, rest, Null);
    afterUnset := repo.OffsetExists(key);
  }

  /**
   * The override layer after `set(group.first, v1)` and then
   * `set(group.second.leaf, v2)` on an empty one: both keys read back their
   * values.
   */
  lemma SetTwiceReadsBoth(group: string, first: string, second: string, leaf: string, v1: Value, v2: Value)
    requires DotFree(group) && DotFree(first) && DotFree(second) && DotFree(leaf) && first != second
    ensures var key1 := group + [KeySeparator] + first;
            var key2 := group + [KeySeparator] + (second + [KeySeparator] + leaf);
            var after := SetSpec(SetSpec(map[], key1, v1), key2, v2);
            ArrayGetSpec(after, Some(key1), Null) == v1 && ArrayGetSpec(after, Some(key2), Null) == v2
  {
    var key1 := group + [KeySeparator] + first;
    var key2 := group + [KeySeparator] + (second + [KeySeparator] + leaf);
    var set1 := SetSpec(map[], key1, v1);
    SetOnEmpty(group, first, v1);
    ParseKeyRoundTrip(group, first);
    GroupSegments(first);
    ParseKeyRoundTrip(group, second + [KeySeparator] + leaf);
    KeySegments(second, leaf);
    GroupSegments(leaf);
    var set2 := SetSpec(set1, key2, v2);
    SetTouchesOnlyGroup(set1, key2, v2);
    var keys := [second, leaf];
    assert set2[group] == SetPath(set1[group], keys, v2);
    SetPathFinds(Arr(map[]), [first], v1);
    SetPathKeepsDiverging(set1[group], keys, v2, [first], 0);
    DotKeyReadsInsideGroup(set2, group, first, Null);
    OverrideAfterSet(set1, key2, v2, Null);
  }

  /**
   * Updating values: after `set(group.first, v1)` and then
   * `set(group.second.leaf, v2)`, both keys read back their truthy values;
   * the second write builds `second` as an array next to `first`.
   */
  method UpdateScenario(loader: Backend, environment: Option<string>, group: string,
                        first: string, second: string, leaf: string, v1: Value, v2: Value)
    returns (r1: Result<Value, Fault>, r2: Result<Value, Fault>)
    requires DotFree(group) && DotFree(first) && DotFree(second) && DotFree(leaf) && first != second
    requires Truthy(v1) && Truthy(v2)
    ensures r1 == Ok(v1) && r2 == Ok(v2)
  {
    var key1 := group + [KeySeparator] + first;
    var key2 := group + [KeySeparator] + (second + [KeySeparator] + leaf);
    var repo := new Repository(loader, environment);
    repo.Set(key1, v1);
    repo.Set(key2, v2);
    SetTwiceReadsBoth(group, first, second, leaf, v1, v2);
    r1 := repo.Get(key1, Null);
    r2 := repo.Get(key2, Null);
  }

  /* ------------------------------------------------------ the LDAP tests */

  /**
   * A repository over the LDAP loader with the tests' table and no
   * environment returns the attributes of the group's node for `get(group)`
   * and caches them.
   */
  lemma LdapRepositoryGetsNode(directory: LdapLoader.Directory, group: string, attributes: Tree)
    requires DotFree(group)
    requires directory("cn=" + group + ",ou=Master,dc=example,dc=com") == Ok(attributes)
    requires attributes != map[]
    ensures GetAnswer(LdapBackend(LdapLoader.Loader(LdapLoader.TestDns(), directory)), None, map[], map[], group, Null)
         == Answer(Ok(Arr(attributes)), map[group := Arr(attributes)])
  {
    LdapLoader.LoadTestGroup(directory, group, attributes);
    ParseKeyGroupOnly(group);
    GroupSegments(group);
  }

  /** When the group's node is not found, `get(group)` is null and nothing is cached. */
  lemma LdapRepositoryMissingNode(directory: LdapLoader.Directory, group: string)
    requires DotFree(group)
    requires directory("cn=" + group + ",ou=Master,dc=example,dc=com") == Err(LdapConnection.NodeNotFound)
    ensures GetAnswer(LdapBackend(LdapLoader.Loader(LdapLoader.TestDns(), directory)), None, map[], map[], group, Null)
         == Answer(Ok(Null), map[])
  {
    LdapLoader.LoadMissingGroup(directory, group);
    ParseKeyGroupOnly(group);
    GroupSegments(group);
  }
}
