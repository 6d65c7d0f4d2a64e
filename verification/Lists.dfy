/** Two shapes of lists that several parts of the model share. */
module Lists {
  ghost predicate Increasing(xs: seq<nat>) {
    forall i, j :: 0 <= i < j < |xs| ==> xs[i] < xs[j]
  }

  ghost predicate IncreasingBelow(xs: seq<nat>, n: nat) {
    Increasing(xs) && forall i :: 0 <= i < |xs| ==> xs[i] < n
  }

  /** Joins with a separator in between. */
  function Join(parts: seq<string>, sep: char): string {
    if parts == [] then []
    else if |parts| == 1 then parts[0]
    else parts[0] + [sep] + Join(parts[1..], sep)
  }
}
