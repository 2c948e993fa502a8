/**
 * `ConfigTree` (src/Config/Loader/ConfigTree.php): array access over a list of
 * configuration trees, answering from the first tree that has a non-null value
 * for the key. The list starts empty and none of its methods adds to it.
 */
module ConfigTree {
  import opened Php

  /** The value of `key` in the first tree where it is set, or null when no tree sets it. */
  function FirstMatch(trees: seq<Tree>, key: string): Value
    decreases |trees|
  {
    if trees == [] then Null
    else if IsSet(trees[0], key) then trees[0][key]
    else FirstMatch(trees[1..], key)
  }

  /**
   * `FirstMatch` is the first-match lookup: null exactly when no tree sets the
   * key, and otherwise the value of the earliest tree that does, trees with a
   * null value for the key being passed over.
   */
  lemma {:induction false} FirstMatchIsFirst(trees: seq<Tree>, key: string)
    ensures FirstMatch(trees, key) == Null <==> forall i :: 0 <= i < |trees| ==> !IsSet(trees[i], key)
    ensures FirstMatch(trees, key) != Null ==>
              exists i :: && 0 <= i < |trees| && IsSet(trees[i], key) && FirstMatch(trees, key) == trees[i][key]
                          && forall j :: 0 <= j < i ==> !IsSet(trees[j], key)
    decreases |trees|
  {
    if trees != [] && !IsSet(trees[0], key) {
      var rest := trees[1..];
      FirstMatchIsFirst(rest, key);
      assert forall i :: 1 <= i < |trees| ==> trees[i] == rest[i - 1];
      if FirstMatch(rest, key) != Null {
        var i :| && 0 <= i < |rest| && IsSet(rest[i], key) && FirstMatch(rest, key) == rest[i][key]
                 && forall j :: 0 <= j < i ==> !IsSet(rest[j], key);
        assert trees[i + 1] == rest[i];
        assert forall j :: 0 <= j < i + 1 ==> !IsSet(trees[j], key) by {
          forall j | 0 <= j < i + 1 ensures !IsSet(trees[j], key) {
            if j > 0 {
              assert trees[j] == rest[j - 1];
            }
          }
        }
      } else {
        forall i | 0 <= i < |trees| ensures !IsSet(trees[i], key) {
          if i > 0 {
            assert trees[i] == rest[i - 1];
          }
        }
      }
    } else if trees != [] {
      assert IsSet(trees[0], key) && FirstMatch(trees, key) == trees[0][key];
    }
  }

  /** A tree that sets the key before every other tree that does decides the answer. */
  lemma FirstMatchAt(trees: seq<Tree>, key: string, i: nat)
    requires i < |trees| && IsSet(trees[i], key)
    requires forall j :: 0 <= j < i ==> !IsSet(trees[j], key)
    ensures FirstMatch(trees, key) == trees[i][key]
  {
    FirstMatchIsFirst(trees, key);
    if FirstMatch(trees, key) != Null {
      var k :| && 0 <= k < |trees| && IsSet(trees[k], key) && FirstMatch(trees, key) == trees[k][key]
               && forall j :: 0 <= j < k ==> !IsSet(trees[j], key);
      assert k == i;
    }
  }

  class ConfigTree {
    var trees: seq<Tree>

    /** `$trees` starts as an empty array. */
    constructor ()
      ensures trees == []
    {
      trees := [];
    }

    /** `get`: the `foreach` over the trees that returns at the first one setting the key. */
    method Get(key: string) returns (r: Value)
      ensures r == FirstMatch(trees, key)
    {
      var i := 0;
      while i < |trees|
        invariant 0 <= i <= |trees|
        invariant FirstMatch(trees, key) == FirstMatch(trees[i..], key)
      {
        assert trees[i..][1..] == trees[i + 1..];
        if IsSet(trees[i], key) {
          return trees[i][key];
        }
        i := i + 1;
      }
      r := Null;
    }

    /** `offsetExists`: some tree sets the key to a non-null value. */
    method OffsetExists(key: string) returns (b: bool)
      ensures b <==> exists i :: 0 <= i < |trees| && IsSet(trees[i], key)
    {
      var v := Get(key);
      FirstMatchIsFirst(trees, key);
      b := v != Null;
    }

    /** `offsetGet` is `get`. */
    method OffsetGet(key: string) returns (r: Value)
      ensures r == FirstMatch(trees, key)
    {
      r := Get(key);
    }

    /** `offsetSet` has an empty body: the trees stay as they were. */
    method OffsetSet(key: string, value: Value)
      ensures trees == old(trees)
    {
    }

    /** `offsetUnset` has an empty body: the trees stay as they were. */
    method OffsetUnset(key: string)
      ensures trees == old(trees)
    {
    }
  }

  /** A new tree list answers null for every key, even after an `offsetSet`. */
  method FreshTreeIsEmpty(key: string, value: Value) returns (before: Value, after: Value, present: bool)
    ensures before == Null && after == Null && !present
  {
    var t := new ConfigTree();
    before := t.Get(key);
    t.OffsetSet(key, value);
    after := t.OffsetGet(key);
    present := t.OffsetExists(key);
  }
}
