/** What the modules share about sequences. */
module Sequences {

  /** s without its element at i; all of s when there is none. */
  function RemoveAt<T>(s: seq<T>, i: nat): (r: seq<T>)
    requires i <= |s|
  {
    if i < |s| then s[..i] + s[i + 1..] else s
  }

  lemma Associative<T>(a: seq<T>, b: seq<T>, c: seq<T>)
    ensures (a + b) + c == a + (b + c)
  {
  }
}
