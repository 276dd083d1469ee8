/** The one ECMAScript array primitive the editor relies on beyond building new arrays. */
module JsArray {

  /**
   * `findIndex(x => key(x) === k)`: the first position whose element has the key, or -1
   * when none has it.
   */
  function FirstIndex<T, K(==)>(s: seq<T>, key: T -> K, k: K): (r: int)
    ensures -1 <= r < |s|
    ensures r >= 0 ==> key(s[r]) == k && forall i :: 0 <= i < r ==> key(s[i]) != k
    ensures r == -1 <==> forall i :: 0 <= i < |s| ==> key(s[i]) != k
  {
    if s == [] then -1
    else if key(s[0]) == k then 0
    else
      var i := FirstIndex(s[1..], key, k);
      if i < 0 then -1 else i + 1
  }
}
