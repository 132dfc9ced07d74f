/** The vocabulary of the sequence matcher: its sequences, matches and operations. */
module Edits {
  /** A common run: `size` elements from `from` and from `to` on (CutSequenceMatchInfo). */
  datatype Match = Match(from: nat, to: nat, size: nat)

  /** A pair of half-open ranges still to be matched (MatchingInfo). */
  datatype Window = Window(fromBegin: nat, fromEnd: nat, toBegin: nat, toEnd: nat)

  datatype Kind = Equal | Insert | Delete | Replace

  datatype Operation = Operation(kind: Kind, fromBegin: nat, fromEnd: nat, toBegin: nat, toEnd: nat)

  /** The two sequences and the junk filter a matcher is created with. */
  datatype Input<!T> = Input(from: seq<T>, to: seq<T>, junk: T -> bool)
}
