/**
 * `Config\Loader\NullLoader`: a loader whose `readConfig` finds nothing, used
 * as a safe default.
 */
module NullLoader {
  import opened Php
  import LoaderAbstract

  /** `readConfig` has an empty body, so it returns null for every prefix and group. */
  function ReadConfig(pathParts: seq<string>, group: string): Option<Tree> {
    None
  }

  function Read(): LoaderAbstract.Reader<()> {
    (pathParts: seq<string>, group: string) => Ok(ReadConfig(pathParts, group))
  }

  /** The inherited `load`. */
  function Load(environment: Option<string>, group: string): Option<Tree> {
    LoaderAbstract.CascadeFaultFree(Read(), environment, group);
    LoaderAbstract.Cascade(Read(), environment, group).value
  }

  /** The cascade never merges: after any number of prefixes the accumulator is still empty. */
  lemma {:induction false} AccumulatorStaysEmpty(segments: seq<string>, group: string, n: nat)
    requires n <= |segments|
    ensures LoaderAbstract.Accumulate(Read(), segments, group, n) == Ok(map[])
  {
    if n > 0 {
      AccumulatorStaysEmpty(segments, group, n - 1);
    }
  }

  /** `load` is null for every environment and group. */
  lemma LoadIsNull(environment: Option<string>, group: string)
    ensures Load(environment, group) == None
  {
    var segments := LoaderAbstract.ParseEnvironment(environment);
    AccumulatorStaysEmpty(segments, group, |segments|);
  }
}
