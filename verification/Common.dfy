/**
 Vocabulary shared by every component: optional values, the return codes of the
 public interface, and flattening of a sequence of sequences.
 */
module Common {

  datatype Option<+T> = None | Some(value: T)

  /** The QcPerfReturnCode values that the modelled functions produce. */
  datatype ReturnCode =
    | Success
    | Failed
    | AlreadyInitialized
    | InvalidArguments
    | NotInitialized
    | CapabilityNotFound
    | NullPointer
    | CallocFailed
    | BackendAlreadyConnected
    | InvalidBackendId
    | BackendNotConnected
    | CallbackAlreadySet

  const UINT32_SPAN: nat := 0x1_0000_0000
  const UINT64_SPAN: nat := 0x1_0000_0000_0000_0000

  function Min(a: nat, b: nat): nat {
    if a <= b then a else b
  }

  function Take<T>(s: seq<T>, n: nat): (r: seq<T>)
    ensures r <= s && |r| == (if |s| <= n then |s| else n)
    ensures forall x :: x in r ==> x in s
  {
    if |s| <= n then s else s[..n]
  }

  lemma TakeTwice<T>(a: seq<T>, b: seq<T>, n: nat)
    ensures Take(Take(a, n) + b, n) == Take(a + b, n)
  {
  }

  lemma LastAgain<T>(s: seq<T>)
    requires s != []
    ensures s[..|s| - 1] + [s[|s| - 1]] == s
  {
  }

  /** What is held below the limit grows by more as the whole does. */
  lemma TakeNext<T>(before: seq<T>, done: seq<T>, more: seq<T>, n: nat)
    requires |Take(before + done, n)| < n && |Take(before + done, n)| + |more| <= n
    ensures Take(before + done, n) + more == Take(before + (done + more), n)
  {
    assert before + done + more == before + (done + more);
  }

  /** At the limit nothing more is held. */
  lemma TakeFull<T>(before: seq<T>, done: seq<T>, all: seq<T>, n: nat)
    requires done <= all && (done == all || |Take(before + done, n)| == n)
    ensures Take(before + done, n) == Take(before + all, n)
  {
    assert before + done <= before + all;
  }

  function Flatten<T>(ss: seq<seq<T>>): seq<T> {
    if ss == [] then [] else Flatten(ss[..|ss| - 1]) + ss[|ss| - 1]
  }

  lemma {:induction false} FlattenSnoc<T>(ss: seq<seq<T>>, s: seq<T>)
    ensures Flatten(ss + [s]) == Flatten(ss) + s
  {
    assert (ss + [s])[..|ss|] == ss;
  }

  /** What is in the parts is in the whole, and nothing else. */
  lemma {:induction false} InFlatten<T>(ss: seq<seq<T>>, x: T)
    ensures x in Flatten(ss) <==> exists k :: 0 <= k < |ss| && x in ss[k]
  {
    if ss != [] {
      var n := |ss| - 1;
      InFlatten(ss[..n], x);
      assert forall k :: 0 <= k < n ==> ss[..n][k] == ss[k];
      assert x in Flatten(ss) <==> x in Flatten(ss[..n]) || x in ss[n];
    }
  }

  lemma {:induction false} FlattenConcat<T>(a: seq<seq<T>>, b: seq<seq<T>>)
    ensures Flatten(a + b) == Flatten(a) + Flatten(b)
  {
    if b == [] {
      assert a + b == a;
    } else {
      var n := |b| - 1;
      FlattenConcat(a, b[..n]);
      assert a + b == (a + b[..n]) + [b[n]];
      FlattenSnoc(a + b[..n], b[n]);
    }
  }
}
