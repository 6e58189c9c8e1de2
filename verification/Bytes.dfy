/** Byte strings, kept as sequences of integers below 256. */
module Bytes {
  predicate IsBytes(s: seq<int>) {
    forall i :: 0 <= i < |s| ==> 0 <= s[i] < 256
  }
}
