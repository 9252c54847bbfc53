/** Removing from and inserting into the middle of a sequence. */
module Sequences {
  function Remove<T>(s: seq<T>, i: nat): seq<T>
    requires i < |s|
  {
    s[..i] + s[i + 1..]
  }

  function InsertAt<T>(s: seq<T>, u: nat, e: T): seq<T>
    requires u <= |s|
  {
    s[..u] + [e] + s[u..]
  }
}
