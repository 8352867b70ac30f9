/** The program counter of a sampling thread, and which threads are live. */
module Threads {

  datatype Pc =
    | Created     // before its first statement
    | Allocating  // the response array
    | Testing     // while (g_is_thread_running)
    | Reading     // the nodes
    | Delivering  // about to call g_data_callback
    | Pausing     // usleep, if still running
    | Leaving     // after the loop
    | Exited

  /** due: the window is due and not empty. */
  function NextPc(pc: Pc, flag: bool, due: bool): Pc {
    match pc
    case Created => Allocating
    case Allocating => Testing
    case Testing => if flag then Reading else Leaving
    case Reading => if due then Delivering else Pausing
    case Delivering => Pausing
    case Pausing => Testing
    case Leaving => Exited
    case Exited => Exited
  }

  predicate IsLive(threads: map<nat, Pc>, t: nat) {
    t in threads && threads[t] != Exited
  }

  function Live(threads: map<nat, Pc>): (live: set<nat>)
    ensures forall t :: t in live <==> IsLive(threads, t)
  {
    set t | t in threads && threads[t] != Exited
  }

  lemma NoneLive(threads: map<nat, Pc>)
    ensures Live(threads) == {} <==> forall t: nat :: !IsLive(threads, t)
  {
  }

  lemma AtMostASingleton(a: set<nat>, x: nat)
    requires a <= {x}
    ensures |a| <= 1
  {
    if x in a {
      assert a == {x};
    } else {
      assert a == {};
    }
  }
}
