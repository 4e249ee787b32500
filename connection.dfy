/**
 * What the dispatch step does to one connection over several completions:
 * frames accumulate as commands in arrival order, a peer close runs them,
 * and the edge cases of the framing.
 */
module Connection {
  import opened Wire
  import opened KvStore
  import opened Ring
  import opened Dispatch

  /** The payloads already received from `fd`, as the Message arm reads them. */
  function Received(commands: map<int, seq<Text>>, fd: int): seq<Text> {
    if fd in commands then commands[fd] else []
  }

  /** A payload the server can take in one receive: non-empty, fits a buffer, valid UTF-8. */
  predicate Deliverable(payload: Text) {
    0 < |payload| <= BufferCapacity && ValidUtf8(payload)
  }

  /** The receive completion that hands over `bytes` in full. */
  function Delivery(index: nat, bytes: seq<byte>): Completion {
    Completion(index, |bytes|, bytes)
  }

  /** A readiness completion for a poll (the event mask is not inspected). */
  function Readiness(index: nat): Completion {
    Completion(index, 1, [])
  }

  /**
   * From `s` to `s'` request `r` went to the end of the submitted log when
   * its push succeeded and to the back of the backlog when it failed.
   */
  ghost predicate Submitted(s: Tables, s': Tables, r: Request, pushed: bool) {
    if pushed then s'.submitted == s.submitted + [r] && s'.backlog == s.backlog
    else s'.backlog == s.backlog + [r] && s'.submitted == s.submitted
  }

  /**
   * A readiness completion never crashes a valid server: it turns a polling
   * token into a header read holding some buffer.
   */
  lemma ReadinessStarts(s0: Tables, pushed: bool, s1: Tables, status: Status, acceptIndex: nat, index: nat, fd: int)
    returns (b: nat)
    requires Inv(s0, acceptIndex) && index in s0.tokens && s0.tokens[index] == Poll(fd, Header)
    requires Step(s0, Readiness(index), pushed, s1, status)
    ensures status == Continue
    ensures Inv(s1, acceptIndex) && b in s1.buffers
    ensures s1.tokens == s0.tokens[index := Read(fd, b, Header)]
    ensures s1.commands == s0.commands && s1.storage == s0.storage
    ensures Submitted(s0, s1, RecvOp(fd, b, HeaderSize, index), pushed)
  {
    b :| Acquirable(s0, b) && (s1, status) == PollStep(s0, index, pushed, b);
    PollKeepsInv(s0, acceptIndex, index, pushed, b);
  }

  /** The bytes a full delivery leaves at the front of the buffer are the delivered ones. */
  lemma DeliveredBytes(buf: seq<byte>, data: seq<byte>)
    requires |data| <= |buf|
    ensures Overwrite(buf, data)[..|data|] == data
  {
  }

  /** Four header bytes announcing `n > 0` never crash: they move the read to the payload phase, same buffer. */
  lemma HeaderContinues(s1: Tables, pushed: bool, s2: Tables, status: Status, acceptIndex: nat,
                        index: nat, fd: int, b: nat, n: nat)
    requires Inv(s1, acceptIndex) && index in s1.tokens && s1.tokens[index] == Read(fd, b, Header)
    requires 0 < n < U32Bound
    requires Step(s1, Delivery(index, EncodeHeader(n)), pushed, s2, status)
    ensures status == Continue
    ensures Inv(s2, acceptIndex)
    ensures s2.tokens == s1.tokens[index := Read(fd, b, Message)]
    ensures s2.commands == s1.commands && s2.storage == s1.storage
    ensures Submitted(s1, s2, RecvOp(fd, b, n, index), pushed)
  {
    var header := EncodeHeader(n);
    DecodeEncode(n);
    ReadStep(s1, Delivery(index, header), pushed, s2, status);
    ReceiveKeepsInv(s1, acceptIndex, index, |header|, header, pushed);
    DeliveredBytes(s1.buffers[b], header);
  }

  /** A delivered payload never crashes: it is appended to the fd's commands and the token polls again. */
  lemma PayloadAppends(s2: Tables, pushed: bool, s3: Tables, status: Status, acceptIndex: nat,
                       index: nat, fd: int, b: nat, payload: Text)
    requires Inv(s2, acceptIndex) && index in s2.tokens && s2.tokens[index] == Read(fd, b, Message)
    requires Deliverable(payload)
    requires Step(s2, Delivery(index, payload), pushed, s3, status)
    ensures status == Continue
    ensures Inv(s3, acceptIndex)
    ensures s3.tokens == s2.tokens[index := Poll(fd, Header)]
    ensures Received(s3.commands, fd) == Received(s2.commands, fd) + [payload]
    ensures s3.commands - {fd} == s2.commands - {fd}
    ensures s3.storage == s2.storage
    ensures s3.bufPool == s2.bufPool + [b]
    ensures Submitted(s2, s3, PollOp(fd, index), pushed)
  {
    ReadStep(s2, Delivery(index, payload), pushed, s3, status);
    ReceiveKeepsInv(s2, acceptIndex, index, |payload|, payload, pushed);
    DeliveredBytes(s2.buffers[b], payload);
    assert s3.commands == s2.commands[fd := Received(s2.commands, fd) + [payload]];
  }

  /**
   * A completion for any other connection, or for the listener, leaves the
   * payloads received from `fd` as they were, so frames from several peers
   * may interleave without mixing their command lists.
   */
  lemma OtherConnectionKeepsReceived(s: Tables, c: Completion, pushed: bool, s': Tables, status: Status, fd: int)
    requires Step(s, c, pushed, s', status)
    requires c.token in s.tokens && !s.tokens[c.token].Accept? ==> s.tokens[c.token].fd != fd
    ensures Received(s'.commands, fd) == Received(s.commands, fd)
  {
    if c.res > 0 && c.token in s.tokens && s.tokens[c.token].Read? {
      var t := s.tokens[c.token];
      if t.bufIndex in s.buffers {
        var buf := Overwrite(s.buffers[t.bufIndex], c.data);
        if c.res <= |buf| && t.phase == Message {
          var s1 := s.(buffers := s.buffers[t.bufIndex := buf]);
          var r := MessageStep(s1, c.token, buf[..c.res], pushed);
          if r.1 == Continue {
            assert r.0.commands == s.commands[t.fd := Received(s.commands, t.fd) + [buf[..c.res]]];
          }
        }
      }
    }
  }

  /** Two maps that agree everywhere but at `k`, and at `k` too, are equal. */
  lemma SameExceptAt<K, V>(m: map<K, V>, m': map<K, V>, k: K)
    requires m.Keys == m'.Keys && k in m && m[k] == m'[k]
    requires forall j :: j in m && j != k ==> m[j] == m'[j]
    ensures m == m'
  {
  }

  /** The completions a peer's frames produce on connection `index`. */
  function Frames(index: nat, payloads: seq<Text>): (cs: seq<Completion>)
    requires forall k :: 0 <= k < |payloads| ==> Deliverable(payloads[k])
    ensures |cs| == 3 * |payloads|
  {
    if payloads == [] then []
    else
      var n := |payloads| - 1;
      var payload := payloads[n];
      assert Deliverable(payload);
      Frames(index, payloads[..n])
        + [Readiness(index), Delivery(index, EncodeHeader(|payload|)), Delivery(index, payload)]
  }

  /**
   * Completion `k` of `cs` leads from `ss[k]` to `ss[k + 1]` with status
   * `sts[k]`, a push made while handling it succeeding when `ps[k]` holds.
   */
  ghost predicate StepAt(ss: seq<Tables>, cs: seq<Completion>, ps: seq<bool>, sts: seq<Status>, k: nat)
    requires k < |cs| && |ss| == |cs| + 1 && |ps| == |cs| && |sts| == |cs|
  {
    Step(ss[k], cs[k], ps[k], ss[k + 1], sts[k])
  }

  /**
   * `ss` is the sequence of tables the completions `cs` lead through, `ps`
   * says whether the submission queue had room while each was handled, and
   * `sts` holds the statuses they report.
   */
  ghost predicate Run(ss: seq<Tables>, cs: seq<Completion>, ps: seq<bool>, sts: seq<Status>) {
    |ss| == |cs| + 1 && |ps| == |cs| && |sts| == |cs| && forall k: nat :: k < |cs| ==> StepAt(ss, cs, ps, sts, k)
  }

  /** No completion of a run panicked. */
  predicate AllContinue(sts: seq<Status>) {
    forall k :: 0 <= k < |sts| ==> sts[k] == Continue
  }

  /** A run's prefix is a run. */
  lemma RunPrefix(ss: seq<Tables>, cs: seq<Completion>, all: seq<Completion>, ps: seq<bool>, sts: seq<Status>)
    requires Run(ss, all, ps, sts) && cs <= all
    ensures Run(ss[..|cs| + 1], cs, ps[..|cs|], sts[..|cs|])
  {
    var before := ss[..|cs| + 1];
    forall k: nat | k < |cs| ensures StepAt(before, cs, ps[..|cs|], sts[..|cs|], k) {
      assert StepAt(ss, all, ps, sts, k);
      assert before[k] == ss[k] && before[k + 1] == ss[k + 1] && all[k] == cs[k];
      assert ps[..|cs|][k] == ps[k] && sts[..|cs|][k] == sts[k];
    }
  }

  /**
   * One frame on a polling connection, completions `m` to `m + 2` of a run:
   * readiness, the 4 header bytes, the payload. None of them panics, the
   * token is back to polling, the payload is appended to the fd's commands,
   * the store is untouched.
   */
  lemma FrameRound(ss: seq<Tables>, cs: seq<Completion>, ps: seq<bool>, sts: seq<Status>, m: nat, acceptIndex: nat,
                   index: nat, fd: int, payload: Text)
    requires Deliverable(payload)
    requires Run(ss, cs, ps, sts) && m + 3 <= |cs|
    requires cs[m] == Readiness(index)
    requires cs[m + 1] == Delivery(index, EncodeHeader(|payload|))
    requires cs[m + 2] == Delivery(index, payload)
    requires Inv(ss[m], acceptIndex) && index in ss[m].tokens && ss[m].tokens[index] == Poll(fd, Header)
    ensures sts[m] == Continue && sts[m + 1] == Continue && sts[m + 2] == Continue
    ensures Appended(ss[m], ss[m + 3], acceptIndex, index, fd, [payload])
  {
    assert StepAt(ss, cs, ps, sts, m);
    var b := ReadinessStarts(ss[m], ps[m], ss[m + 1], sts[m], acceptIndex, index, fd);
    HeaderAt(ss, cs, ps, sts, m + 1, acceptIndex, index, fd, b, |payload|);
    PayloadAt(ss, cs, ps, sts, m + 2, acceptIndex, index, fd, b, payload);
    SameExceptAt(ss[m].tokens, ss[m + 3].tokens, index);
  }

  /** HeaderContinues, as completion `k` of a run. */
  lemma HeaderAt(ss: seq<Tables>, cs: seq<Completion>, ps: seq<bool>, sts: seq<Status>, k: nat, acceptIndex: nat,
                 index: nat, fd: int, b: nat, n: nat)
    requires 0 < n < U32Bound && Run(ss, cs, ps, sts) && k < |cs| && cs[k] == Delivery(index, EncodeHeader(n))
    requires Inv(ss[k], acceptIndex) && index in ss[k].tokens && ss[k].tokens[index] == Read(fd, b, Header)
    ensures sts[k] == Continue && Inv(ss[k + 1], acceptIndex)
    ensures ss[k + 1].tokens == ss[k].tokens[index := Read(fd, b, Message)]
    ensures ss[k + 1].commands == ss[k].commands && ss[k + 1].storage == ss[k].storage
  {
    assert StepAt(ss, cs, ps, sts, k);
    HeaderContinues(ss[k], ps[k], ss[k + 1], sts[k], acceptIndex, index, fd, b, n);
  }

  /** PayloadAppends, as completion `k` of a run. */
  lemma PayloadAt(ss: seq<Tables>, cs: seq<Completion>, ps: seq<bool>, sts: seq<Status>, k: nat, acceptIndex: nat,
                  index: nat, fd: int, b: nat, payload: Text)
    requires Run(ss, cs, ps, sts) && k < |cs| && cs[k] == Delivery(index, payload) && Deliverable(payload)
    requires Inv(ss[k], acceptIndex) && index in ss[k].tokens && ss[k].tokens[index] == Read(fd, b, Message)
    ensures sts[k] == Continue && Inv(ss[k + 1], acceptIndex)
    ensures ss[k + 1].tokens == ss[k].tokens[index := Poll(fd, Header)]
    ensures Received(ss[k + 1].commands, fd) == Received(ss[k].commands, fd) + [payload]
    ensures ss[k + 1].commands - {fd} == ss[k].commands - {fd}
    ensures ss[k + 1].storage == ss[k].storage
  {
    assert StepAt(ss, cs, ps, sts, k);
    PayloadAppends(ss[k], ps[k], ss[k + 1], sts[k], acceptIndex, index, fd, b, payload);
  }

  /**
   * From `s` to `s'` the connection at `index` stays polling, the tables keep
   * the invariant, the store is untouched and the fd's command list has
   * grown by exactly `payloads`.
   */
  ghost predicate Appended(s: Tables, s': Tables, acceptIndex: nat, index: nat, fd: int, payloads: seq<Text>) {
    && Inv(s', acceptIndex)
    && s'.tokens == s.tokens && s'.storage == s.storage
    && Received(s'.commands, fd) == Received(s.commands, fd) + payloads
    && s'.commands - {fd} == s.commands - {fd}
  }

  lemma AppendedChain(s0: Tables, s1: Tables, s2: Tables, acceptIndex: nat, index: nat, fd: int,
                      front: seq<Text>, back: seq<Text>)
    requires Appended(s0, s1, acceptIndex, index, fd, front)
    requires Appended(s1, s2, acceptIndex, index, fd, back)
    ensures Appended(s0, s2, acceptIndex, index, fd, front + back)
  {
  }

  /** The last frame's completions follow those of the frames before it. */
  lemma FramesLast(index: nat, payloads: seq<Text>)
    requires forall k :: 0 <= k < |payloads| ==> Deliverable(payloads[k])
    requires payloads != []
    ensures var n := |payloads| - 1; var cs := Frames(index, payloads);
      && Frames(index, payloads[..n]) <= cs
      && cs[3 * n] == Readiness(index)
      && cs[3 * n + 1] == Delivery(index, EncodeHeader(|payloads[n]|))
      && cs[3 * n + 2] == Delivery(index, payloads[n])
  {
  }

  /**
   * However many frames a connection sends, none of their completions
   * crashes the server, the fd's command list grows by exactly their
   * payloads in arrival order, and the connection is back to polling with
   * the store untouched.
   */
  lemma {:induction false} FramesAccumulate(ss: seq<Tables>, ps: seq<bool>, sts: seq<Status>, acceptIndex: nat,
                                            index: nat, fd: int, payloads: seq<Text>)
    requires forall k :: 0 <= k < |payloads| ==> Deliverable(payloads[k])
    requires Run(ss, Frames(index, payloads), ps, sts)
    requires Inv(ss[0], acceptIndex) && index in ss[0].tokens && ss[0].tokens[index] == Poll(fd, Header)
    ensures AllContinue(sts)
    ensures Appended(ss[0], ss[|ss| - 1], acceptIndex, index, fd, payloads)
  {
    if payloads != [] {
      var n := |payloads| - 1;
      var before := ss[..3 * n + 1];
      FramesPrefix(ss, ps, sts, index, payloads);
      FramesAccumulate(before, ps[..3 * n], sts[..3 * n], acceptIndex, index, fd, payloads[..n]);
      LastFrame(ss, ps, sts, acceptIndex, index, fd, payloads);
    } else {
      assert Received(ss[0].commands, fd) + payloads == Received(ss[0].commands, fd);
    }
  }

  /** The states a run passes through before its last frame form a run of the earlier frames. */
  lemma FramesPrefix(ss: seq<Tables>, ps: seq<bool>, sts: seq<Status>, index: nat, payloads: seq<Text>)
    requires forall k :: 0 <= k < |payloads| ==> Deliverable(payloads[k])
    requires payloads != [] && Run(ss, Frames(index, payloads), ps, sts)
    ensures var n := |payloads| - 1; var before := ss[..3 * n + 1];
      && (forall k :: 0 <= k < n ==> Deliverable(payloads[..n][k]))
      && Run(before, Frames(index, payloads[..n]), ps[..3 * n], sts[..3 * n])
      && before[0] == ss[0] && before[|before| - 1] == ss[3 * n]
  {
    var n := |payloads| - 1;
    FramesLast(index, payloads);
    RunPrefix(ss, Frames(index, payloads[..n]), Frames(index, payloads), ps, sts);
  }

  /** Statuses that are all `Continue` before `m` and at `m` to `m + 2` are all `Continue`. */
  lemma ContinueExtends(sts: seq<Status>, m: nat)
    requires |sts| == m + 3 && AllContinue(sts[..m])
    requires sts[m] == Continue && sts[m + 1] == Continue && sts[m + 2] == Continue
    ensures AllContinue(sts)
  {
    forall k | 0 <= k < |sts| ensures sts[k] == Continue {
      if k < m {
        assert sts[..m][k] == sts[k];
      }
    }
  }

  /** The inductive step of FramesAccumulate: the last frame extends what the others appended. */
  lemma LastFrame(ss: seq<Tables>, ps: seq<bool>, sts: seq<Status>, acceptIndex: nat, index: nat, fd: int,
                  payloads: seq<Text>)
    requires forall k :: 0 <= k < |payloads| ==> Deliverable(payloads[k])
    requires payloads != [] && Run(ss, Frames(index, payloads), ps, sts)
    requires index in ss[0].tokens && ss[0].tokens[index] == Poll(fd, Header)
    requires AllContinue(sts[..3 * (|payloads| - 1)])
    requires Appended(ss[0], ss[3 * (|payloads| - 1)], acceptIndex, index, fd, payloads[..|payloads| - 1])
    ensures AllContinue(sts)
    ensures Appended(ss[0], ss[|ss| - 1], acceptIndex, index, fd, payloads)
  {
    var n := |payloads| - 1;
    var m := 3 * n;
    var payload := payloads[n];
    assert Deliverable(payload);
    FramesLast(index, payloads);
    assert |ss| - 1 == m + 3;
    FrameRound(ss, Frames(index, payloads), ps, sts, m, acceptIndex, index, fd, payload);
    ContinueExtends(sts, m);
    AppendedChain(ss[0], ss[m], ss[m + 3], acceptIndex, index, fd, payloads[..n], [payload]);
    assert payloads[..n] + [payload] == payloads;
  }

  /**
   * The peer closes a polling connection: readiness, then a receive of zero
   * bytes. The readiness never panics; the fd's command list is run against
   * the store (a panic if the fd never sent a payload or the list is too
   * short), the token is removed and the command list is left in place.
   */
  lemma PeerCloseExecutes(s0: Tables, readyPushed: bool, s1: Tables, ready: Status, closePushed: bool,
                          s2: Tables, status: Status, acceptIndex: nat, index: nat, fd: int)
    requires Inv(s0, acceptIndex) && index in s0.tokens && s0.tokens[index] == Poll(fd, Header)
    requires Step(s0, Readiness(index), readyPushed, s1, ready)
    requires Step(s1, Completion(index, 0, []), closePushed, s2, status)
    ensures ready == Continue
    ensures fd !in s0.commands ==> status == Panic(MissingCommands)
    ensures fd in s0.commands && !InRange(s0.commands[fd]) ==> status == Panic(CommandOutOfRange)
    ensures fd in s0.commands && InRange(s0.commands[fd]) ==>
      && status == Continue
      && s2.storage == Execute(s0.commands[fd], s0.storage).store
      && s2.commands == s0.commands
      && s2.tokens == s0.tokens - {index}
  {
    var b := ReadinessStarts(s0, readyPushed, s1, ready, acceptIndex, index, fd);
    ReadStep(s1, Completion(index, 0, []), closePushed, s2, status);
  }

  /**
   * A frame that declares length zero closes the connection without running
   * its commands: the store and the command lists stay as they were.
   */
  lemma ZeroLengthFrameCloses(s0: Tables, readyPushed: bool, s1: Tables, ready: Status, headerPushed: bool,
                              s2: Tables, status: Status, acceptIndex: nat, index: nat, fd: int)
    requires Inv(s0, acceptIndex) && index in s0.tokens && s0.tokens[index] == Poll(fd, Header)
    requires Step(s0, Readiness(index), readyPushed, s1, ready)
    requires Step(s1, Delivery(index, EncodeHeader(0)), headerPushed, s2, status)
    ensures ready == Continue && status == Continue
    ensures s2.storage == s0.storage && s2.commands == s0.commands
    ensures s2.tokens == s0.tokens - {index}
  {
    var b := ReadinessStarts(s0, readyPushed, s1, ready, acceptIndex, index, fd);
    DecodeEncode(0);
    DeliveredBytes(s1.buffers[b], EncodeHeader(0));
    ReadStep(s1, Delivery(index, EncodeHeader(0)), headerPushed, s2, status);
  }

  /**
   * A declared length is not checked against the buffer: a header announcing
   * 4102 bytes makes the server submit a receive of 4102 bytes into a buffer
   * of 4101.
   */
  lemma OversizedFrameOverrunsBuffer(s0: Tables, s1: Tables, s2: Tables, ready: Status, status: Status,
                                     acceptIndex: nat, index: nat, fd: int)
    requires Inv(s0, acceptIndex) && index in s0.tokens && s0.tokens[index] == Poll(fd, Header)
    requires Step(s0, Readiness(index), true, s1, ready)
    requires Step(s1, Delivery(index, [0x00, 0x00, 0x10, 0x06]), true, s2, status)
    ensures ready == Continue
    ensures status == Continue && index in s2.tokens && s2.tokens[index].Read?
    ensures var b := s2.tokens[index].bufIndex;
      && b in s2.buffers
      && s2.submitted == s1.submitted + [RecvOp(fd, b, 4102, index)]
      && |s2.buffers[b]| < 4102
  {
    var b := ReadinessStarts(s0, true, s1, ready, acceptIndex, index, fd);
    var header: seq<byte> := [0x00, 0x00, 0x10, 0x06];
    assert DecodeHeader(header) == 4102;
    DeliveredBytes(s1.buffers[b], header);
    ReadStep(s1, Delivery(index, header), true, s2, status);
  }

  /**
   * A polling connection sends its frames and then closes: no completion
   * crashes the server, and the store ends up as the interpreter leaves it
   * after the fd's earlier payloads followed by this connection's, in arrival
   * order.
   */
  lemma ConnectionExecutes(ss: seq<Tables>, ps: seq<bool>, sts: seq<Status>,
                           readyPushed: bool, s1: Tables, ready: Status, closePushed: bool, s2: Tables, status: Status,
                           acceptIndex: nat, index: nat, fd: int, payloads: seq<Text>)
    requires forall k :: 0 <= k < |payloads| ==> Deliverable(payloads[k])
    requires Run(ss, Frames(index, payloads), ps, sts)
    requires Inv(ss[0], acceptIndex) && index in ss[0].tokens && ss[0].tokens[index] == Poll(fd, Header)
    requires Step(ss[|ss| - 1], Readiness(index), readyPushed, s1, ready)
    requires Step(s1, Completion(index, 0, []), closePushed, s2, status)
    requires InRange(Received(ss[0].commands, fd) + payloads)
    ensures AllContinue(sts) && ready == Continue
    ensures status == Continue && index !in s2.tokens
    ensures s2.storage == Execute(Received(ss[0].commands, fd) + payloads, ss[0].storage).store
  {
    FramesAccumulate(ss, ps, sts, acceptIndex, index, fd, payloads);
    var last := ss[|ss| - 1];
    assert fd in last.commands;
    PeerCloseExecutes(last, readyPushed, s1, ready, closePushed, s2, status, acceptIndex, index, fd);
  }

  /**
   * The command lists are never removed, so a socket that reuses the fd of
   * an earlier connection whose list was already complete runs that earlier
   * list again, and its own payloads have no effect on the store.
   */
  lemma ReusedFdReplaysEarlierCommands(ss: seq<Tables>, ps: seq<bool>, sts: seq<Status>,
                                       readyPushed: bool, s1: Tables, ready: Status,
                                       closePushed: bool, s2: Tables, status: Status,
                                       acceptIndex: nat, index: nat, fd: int, payloads: seq<Text>)
    requires forall k :: 0 <= k < |payloads| ==> Deliverable(payloads[k])
    requires Run(ss, Frames(index, payloads), ps, sts)
    requires Inv(ss[0], acceptIndex) && index in ss[0].tokens && ss[0].tokens[index] == Poll(fd, Header)
    requires Step(ss[|ss| - 1], Readiness(index), readyPushed, s1, ready)
    requires Step(s1, Completion(index, 0, []), closePushed, s2, status)
    requires fd in ss[0].commands && InRange(ss[0].commands[fd])
    ensures AllContinue(sts) && ready == Continue && status == Continue
    ensures s2.storage == Execute(ss[0].commands[fd], ss[0].storage).store
  {
    var earlier := ss[0].commands[fd];
    TrailingEntriesIgnored(earlier, payloads, ss[0].storage);
    ConnectionExecutes(ss, ps, sts, readyPushed, s1, ready, closePushed, s2, status, acceptIndex, index, fd, payloads);
  }

  /**
   * The server's first accept never panics. When it puts a connection at
   * `index`, that connection is polling for its first header and has sent
   * nothing yet.
   */
  lemma FirstAccept(acceptIndex: nat, fd: int, index: nat, pushed: bool, s0: Tables, accepted: Status)
    requires index != acceptIndex
    requires Step(Initial(acceptIndex), Completion(acceptIndex, fd, []), pushed, s0, accepted)
    requires index in s0.tokens
    ensures accepted == Continue
    ensures Inv(s0, acceptIndex) && s0.tokens[index] == Poll(fd, Header)
    ensures Received(s0.commands, fd) == [] && s0.storage == map[]
  {
    var init := Initial(acceptIndex);
    InitialInv(acceptIndex);
    assert fd >= 0;
    var i :| i !in init.tokens && s0 == AcceptStep(init, fd, pushed, i);
    AcceptKeepsInv(init, acceptIndex, fd, pushed, i);
    assert s0.tokens == map[acceptIndex := Accept, i := Poll(fd, Header)];
  }

  /** "a" */
  const KeyA: Text := [0x61]
  /** "b" */
  const ValueB: Text := [0x62]

  /**
   * The server starts, accepts a connection into slab index `index`, and the
   * peer sends the frames "set", "a", "b" and then closes: nothing panics
   * and the store maps "a" to "b".
   */
  lemma SetSessionStoresValue(acceptIndex: nat, fd: int, index: nat, acceptPushed: bool, ss: seq<Tables>,
                              accepted: Status, ps: seq<bool>, sts: seq<Status>,
                              readyPushed: bool, s1: Tables, ready: Status, closePushed: bool, s2: Tables, status: Status)
    requires index != acceptIndex
    requires |ss| > 0 && Step(Initial(acceptIndex), Completion(acceptIndex, fd, []), acceptPushed, ss[0], accepted)
    requires index in ss[0].tokens
    requires Run(ss, Frames(index, [SetOp, KeyA, ValueB]), ps, sts)
    requires Step(ss[|ss| - 1], Readiness(index), readyPushed, s1, ready)
    requires Step(s1, Completion(index, 0, []), closePushed, s2, status)
    ensures accepted == Continue && AllContinue(sts) && ready == Continue && status == Continue
    ensures s2.storage == map[KeyA := ValueB]
  {
    var payloads := [SetOp, KeyA, ValueB];
    SetFramesDeliverable();
    FirstAccept(acceptIndex, fd, index, acceptPushed, ss[0], accepted);
    assert Received(ss[0].commands, fd) + payloads == payloads;
    ConnectionExecutes(ss, ps, sts, readyPushed, s1, ready, closePushed, s2, status, acceptIndex, index, fd, payloads);
  }

  /** The frames of the session "set", "a", "b" are deliverable, and the command stores "a". */
  lemma SetFramesDeliverable()
    ensures forall k :: 0 <= k < 3 ==> Deliverable([SetOp, KeyA, ValueB][k])
    ensures InRange([SetOp, KeyA, ValueB])
    ensures Execute([SetOp, KeyA, ValueB], map[]).store == map[KeyA := ValueB]
  {
    AsciiIsUtf8(SetOp);
    AsciiIsUtf8(KeyA);
    AsciiIsUtf8(ValueB);
  }
}
