/** Overwriting part of a sequence: what memmove does to a buffer of known size. */
module Sequences {

  function Splice<T>(s: seq<T>, at: nat, e: seq<T>): (r: seq<T>)
    requires at + |e| <= |s|
    ensures |r| == |s|
    ensures forall i :: 0 <= i < |s| ==> r[i] == if at <= i < at + |e| then e[i - at] else s[i]
  {
    s[..at] + e + s[at + |e|..]
  }

  lemma SpliceTwice<T>(s: seq<T>, at: nat, e1: seq<T>, e2: seq<T>)
    requires at + |e1| + |e2| <= |s|
    ensures Splice(Splice(s, at, e1), at + |e1|, e2) == Splice(s, at, e1 + e2)
  {
  }
}
