/** The optional value used throughout the model for JavaScript's `undefined`/`null`. */
module Options {
  datatype Option<T> = None | Some(value: T)

  /** `xs || []`: a missing list reads as the empty list. */
  function OrEmpty<T>(xs: Option<seq<T>>): (r: seq<T>)
    ensures xs.None? ==> r == []
    ensures xs.Some? ==> r == xs.value
  {
    if xs.Some? then xs.value else []
  }

  /** `array[index] = v` on a JavaScript array: writing past the end leaves holes. */
  function Put<T>(a: seq<Option<T>>, index: nat, v: T): (r: seq<Option<T>>)
    ensures |r| == if index < |a| then |a| else index + 1
    ensures r[index] == Some(v)
    ensures forall k :: 0 <= k < |r| && k != index ==> r[k] == (if k < |a| then a[k] else None)
  {
    if index < |a| then a[index := Some(v)]
    else a + seq(index - |a|, _ => None) + [Some(v)]
  }
}
