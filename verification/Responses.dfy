/** The readings that every backend hands to the client, as QcPerfData carries them. */
module Responses {

  /** A QcPerfMetricValue. Text(n) stands for the string dummy_string_n; NoText for a string response without a buffer. */
  datatype Value = Bool(b: bool) | Uint64(n: nat) | Int64(n: nat) | Double(x: real) | Text(n: nat) | NoText

  /** A QcPerfMetricResponse. */
  datatype Response = Response(id: nat, timestamp: nat, value: Value)

  /** What calloc leaves in a response array. */
  const BLANK := Response(0, 0, Bool(false))

  function Ids(s: seq<Response>): (r: seq<nat>)
    ensures |r| == |s|
  {
    seq(|s|, i requires 0 <= i < |s| => s[i].id)
  }

  lemma IdsConcat(a: seq<Response>, b: seq<Response>)
    ensures Ids(a + b) == Ids(a) + Ids(b)
  {
  }
}
