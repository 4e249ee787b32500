/**
 * The kernel's submission and completion queues, seen from the server:
 * requests it hands over, completions it gets back, and what happens to
 * each entry while the backlog is drained.
 */
module Ring {
  import opened Wire

  /** A submission-queue entry; `token` is its `user_data` correlation index. */
  datatype Request =
    | AcceptOp(token: nat)
    | PollOp(fd: int, token: nat)
    | RecvOp(fd: int, buf: nat, len: nat, token: nat)

  /**
   * A completion-queue entry: the request's token index, its result (`res`,
   * negative for an OS error) and, for a receive, the bytes the kernel
   * copied to the start of the request's buffer.
   */
  datatype Completion = Completion(token: nat, res: int, data: seq<byte>)

  /**
   * One turn of the backlog drain: the entry is pushed (`Room`), the queue is
   * full and submitting reports busy so the drain stops (`Busy`), or the
   * entry is popped but its push fails and the failure is ignored (`Lost`).
   */
  datatype DrainSignal = Room | Busy | Lost

  /** The entries of `popped` that reach the submission queue, in order. */
  function Delivered(popped: seq<Request>, signals: seq<DrainSignal>): (r: seq<Request>)
    requires |signals| == |popped|
    ensures |r| <= |popped|
    ensures forall x :: x in r ==> x in popped
  {
    if popped == [] then []
    else
      var n := |popped| - 1;
      Delivered(popped[..n], signals[..n]) + (if signals[n] == Room then [popped[n]] else [])
  }

  /**
   * The drain treats each popped entry on its own: what a longer drain
   * delivers is what its first part delivers followed by what the rest does,
   * so the delivered entries keep the order they were popped in.
   */
  lemma {:induction false} DeliveredAppend(front: seq<Request>, frontSignals: seq<DrainSignal>,
                                           back: seq<Request>, backSignals: seq<DrainSignal>)
    requires |frontSignals| == |front| && |backSignals| == |back|
    ensures Delivered(front + back, frontSignals + backSignals)
         == Delivered(front, frontSignals) + Delivered(back, backSignals)
  {
    if back != [] {
      var n := |back| - 1;
      DeliveredAppend(front, frontSignals, back[..n], backSignals[..n]);
      assert (front + back)[..|front| + n] == front + back[..n];
      assert (frontSignals + backSignals)[..|front| + n] == frontSignals + backSignals[..n];
    } else {
      assert front + back == front && frontSignals + backSignals == frontSignals;
    }
  }

  /** One popped entry reaches the queue exactly when its push has room. */
  lemma DeliveredOne(r: Request, signal: DrainSignal)
    ensures Delivered([r], [signal]) == if signal == Room then [r] else []
  {
    assert [r][..0] == [];
  }

  /** When no push is lost, the drain delivers what it pops, front first. */
  lemma {:induction false} DeliveredInOrder(popped: seq<Request>, signals: seq<DrainSignal>)
    requires |signals| == |popped|
    requires forall i :: 0 <= i < |signals| ==> signals[i] == Room
    ensures Delivered(popped, signals) == popped
  {
    if popped != [] {
      var n := |popped| - 1;
      DeliveredInOrder(popped[..n], signals[..n]);
      assert popped[..n] + [popped[n]] == popped;
    }
  }
}
