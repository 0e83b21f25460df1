/** Option, used wherever the engine returns a null pointer, `npos` or "not
    found", and the front-to-back scan behind every by-name lookup. */
module Opt {
  datatype Option<+T> = None | Some(value: T)

  /** The first index at or after `i` whose key is `key`. */
  function FirstIndexFrom(keys: seq<string>, key: string, i: nat): (r: Option<nat>)
    requires i <= |keys|
    ensures r.Some? ==> i <= r.value < |keys| && keys[r.value] == key
                        && forall j :: i <= j < r.value ==> keys[j] != key
    ensures r.None? ==> forall j :: i <= j < |keys| ==> keys[j] != key
    decreases |keys| - i
  {
    if i == |keys| then None
    else if keys[i] == key then Some(i)
    else FirstIndexFrom(keys, key, i + 1)
  }

  /** The first index whose key is `key`, or `None` when no key matches. */
  function FirstIndex(keys: seq<string>, key: string): (r: Option<nat>)
    ensures r.Some? ==> r.value < |keys| && keys[r.value] == key
                        && forall j :: 0 <= j < r.value ==> keys[j] != key
    ensures r.None? <==> forall j :: 0 <= j < |keys| ==> keys[j] != key
  {
    FirstIndexFrom(keys, key, 0)
  }
}
