/**
 * The server's event loop as the program runs it: one object owning the
 * token slab, the buffer pool and slab, the per-fd command lists, the store
 * and the backlog, with one method per arm of the completion match. Each
 * method is proved to perform the matching transition of module Dispatch,
 * so the invariant and the connection lemmas proved there hold of it.
 */
module EventLoop {
  import opened Wrappers
  import opened Wire
  import opened KvStore
  import opened Ring
  import opened Dispatch

  /** A number above every key of `keys`. */
  ghost function Above(keys: set<nat>): (n: nat)
    ensures forall k :: k in keys ==> k < n
  {
    if keys == {} then 0
    else
      var top :| top in keys;
      var rest := Above(keys - {top});
      assert forall k :: k in keys ==> k == top || k in keys - {top};
      if top < rest then rest else top + 1
  }

  /** `Slab::insert` / `vacant_entry`: some index the slab does not occupy. */
  method VacantKey<V>(m: map<nat, V>) returns (i: nat)
    ensures i !in m
  {
    ghost var bound := Above(m.Keys);
    i := 0;
    while i in m
      invariant i <= bound
      decreases bound - i
    {
      i := i + 1;
    }
  }

  class Server {
    /** The index the Accept token was inserted at; it never changes. */
    const acceptIndex: nat
    var tokens: map<nat, Token>
    var bufPool: seq<nat>
    var buffers: map<nat, seq<byte>>
    var commands: map<int, seq<Text>>
    var storage: Store
    var backlog: seq<Request>
    /** Every request pushed into the submission queue so far, in order. */
    var submitted: seq<Request>

    /** The object's tables as a value. */
    function State(): Tables
      reads this
    {
      Tables(tokens, bufPool, buffers, commands, storage, backlog, submitted)
    }

    ghost predicate Valid()
      reads this
    {
      Inv(State(), acceptIndex)
    }

    /**
     * Empty tables, the Accept token inserted at the slab's chosen index, and
     * the first accept request pushed into the freshly created, empty queue.
     */
    constructor (acceptIndex: nat)
      ensures this.acceptIndex == acceptIndex
      ensures State() == Initial(acceptIndex)
      ensures Valid()
    {
      this.acceptIndex := acceptIndex;
      tokens := map[acceptIndex := Accept];
      bufPool := [];
      buffers := map[];
      commands := map[];
      storage := map[];
      backlog := [];
      submitted := [AcceptOp(acceptIndex)];
      new;
      InitialInv(acceptIndex);
    }

    /** Pushing the accept request, which panics when the submission queue is full. */
    method SubmitAccept(pushed: bool) returns (status: Status)
      modifies this`submitted
      ensures pushed ==> status == Continue && submitted == old(submitted) + [AcceptOp(acceptIndex)]
      ensures !pushed ==> status == Panic(AcceptQueueFull) && submitted == old(submitted)
    {
      if pushed {
        submitted := submitted + [AcceptOp(acceptIndex)];
        status := Continue;
      } else {
        status := Panic(AcceptQueueFull);
      }
    }

    /** `sq.push(&op)`, falling back to `backlog.push_back(op)`. */
    method Push(r: Request, pushed: bool)
      modifies this`submitted, this`backlog
      ensures State() == Submit(old(State()), r, pushed)
    {
      if pushed {
        submitted := submitted + [r];
      } else {
        backlog := backlog + [r];
      }
    }

    /** `run_command`: applies one command list to the store in place. */
    method RunCommand(command: seq<Text>) returns (result: Option<Text>)
      requires InRange(command)
      modifies this`storage
      ensures Outcome(storage, result) == Execute(command, old(storage))
    {
      var op := command[0];
      if op == GetOp {
        result := Lookup(storage, command[1]);
      } else if op == SetOp {
        result := Lookup(storage, command[1]);
        storage := storage[command[1] := command[2]];
      } else if op == DelOp {
        result := Lookup(storage, command[1]);
        storage := storage - {command[1]};
      } else {
        result := None;
      }
    }

    /** The Accept arm: a Poll token for socket `fd` at a vacant index, and its poll request. */
    method OnAccept(fd: int, pushed: bool) returns (pollIndex: nat)
      modifies this
      ensures pollIndex !in old(tokens)
      ensures State() == AcceptStep(old(State()), fd, pushed, pollIndex)
    {
      pollIndex := VacantKey(tokens);
      tokens := tokens[pollIndex := Poll(fd, Header)];
      Push(PollOp(fd, pollIndex), pushed);
    }

    /** The Poll arm: acquire a buffer, turn the token into a Read in place, submit the receive. */
    method OnPoll(index: nat, pushed: bool) returns (b: nat, status: Status)
      requires index in tokens && tokens[index].Poll?
      modifies this
      ensures Acquirable(old(State()), b)
      ensures (State(), status) == PollStep(old(State()), index, pushed, b)
    {
      var t := tokens[index];
      if bufPool != [] {
        b := bufPool[|bufPool| - 1];
        if b !in buffers {
          return b, Panic(VacantBuffer);
        }
        bufPool := bufPool[..|bufPool| - 1];
      } else {
        b := VacantKey(buffers);
        buffers := buffers[b := Zeroes(BufferCapacity)];
      }
      tokens := tokens[index := Read(t.fd, b, t.phase)];
      Push(RecvOp(t.fd, b, ReadSize(t.phase), index), pushed);
      status := Continue;
    }

    /** The Read arm on end of stream: run the fd's commands, release the buffer, drop the token. */
    method OnClose(index: nat) returns (status: Status)
      requires index in tokens && tokens[index].Read?
      modifies this
      ensures (State(), status) == CloseStep(old(State()), index)
    {
      var t := tokens[index];
      if t.fd !in commands {
        return Panic(MissingCommands);
      }
      var command := commands[t.fd];
      if !InRange(command) {
        return Panic(CommandOutOfRange);
      }
      var _ := RunCommand(command);
      bufPool := bufPool + [t.bufIndex];
      tokens := tokens - {index};
      status := Continue;
    }

    /** The Header phase: close on a zero length, otherwise receive the payload into the same buffer. */
    method OnHeader(index: nat, bytes: seq<byte>, pushed: bool) returns (status: Status)
      requires index in tokens && tokens[index].Read?
      modifies this
      ensures (State(), status) == HeaderStep(old(State()), index, bytes, pushed)
    {
      var t := tokens[index];
      if |bytes| != HeaderSize {
        return Panic(HeaderLengthMismatch);
      }
      var n := DecodeHeader(bytes);
      if n == 0 {
        bufPool := bufPool + [t.bufIndex];
        tokens := tokens - {index};
      } else {
        tokens := tokens[index := Read(t.fd, t.bufIndex, Message)];
        Push(RecvOp(t.fd, t.bufIndex, n, index), pushed);
      }
      status := Continue;
    }

    /** The Message phase: append the payload to the fd's list, release the buffer, poll again. */
    method OnMessage(index: nat, bytes: seq<byte>, pushed: bool) returns (status: Status)
      requires index in tokens && tokens[index].Read?
      modifies this
      ensures (State(), status) == MessageStep(old(State()), index, bytes, pushed)
    {
      var t := tokens[index];
      if !ValidUtf8(bytes) {
        return Panic(InvalidUtf8);
      }
      var received := if t.fd in commands then commands[t.fd] else [];
      commands := commands[t.fd := received + [bytes]];
      bufPool := bufPool + [t.bufIndex];
      tokens := tokens[index := Poll(t.fd, Header)];
      Push(PollOp(t.fd, index), pushed);
      status := Continue;
    }

    /** The Read arm with `res > 0`: the kernel has written `data`; hand `buf[..res]` to the phase. */
    method OnReceive(index: nat, res: nat, data: seq<byte>, pushed: bool) returns (status: Status)
      requires index in tokens && tokens[index].Read?
      modifies this
      ensures (State(), status) == ReceiveStep(old(State()), index, res, data, pushed)
    {
      var t := tokens[index];
      if t.bufIndex !in buffers {
        return Panic(VacantBuffer);
      }
      var buf := Overwrite(buffers[t.bufIndex], data);
      if res > |buf| {
        return Panic(SliceOutOfBounds);
      }
      var bytes := buf[..res];
      if t.phase == Header && |bytes| != HeaderSize {
        return Panic(HeaderLengthMismatch);
      }
      if t.phase == Message && !ValidUtf8(bytes) {
        return Panic(InvalidUtf8);
      }
      buffers := buffers[t.bufIndex := buf];
      match t.phase
      case Header =>
        status := OnHeader(index, bytes, pushed);
      case Message =>
        status := OnMessage(index, bytes, pushed);
    }

    /**
     * The body of the completion loop for one completion: skip an error,
     * look the token up, run the arm for its variant. The tables keep their
     * ownership invariant, and a popped buffer is always allocated.
     */
    method HandleCompletion(c: Completion, pushed: bool) returns (status: Status)
      modifies this
      ensures Step(old(State()), c, pushed, State(), status)
      ensures c.res < 0 ==> State() == old(State()) && status == Continue
      ensures old(Valid()) ==> Valid() && status != Panic(VacantBuffer)
    {
      ghost var s0 := State();
      ghost var valid0 := Valid();
      if c.res < 0 {
        status := Continue;
      } else if c.token !in tokens {
        status := Panic(VacantToken);
      } else {
        match tokens[c.token]
        case Accept =>
          var pollIndex := OnAccept(c.res, pushed);
          assert pollIndex !in s0.tokens && State() == AcceptStep(s0, c.res, pushed, pollIndex);
          status := Continue;
        case Poll(_, _) =>
          var b;
          b, status := OnPoll(c.token, pushed);
        case Read(_, _, _) =>
          if c.res == 0 {
            status := OnClose(c.token);
          } else {
            status := OnReceive(c.token, c.res, c.data, pushed);
          }
      }
      if valid0 {
        StepKeepsInv(s0, acceptIndex, c, pushed, State(), status);
      }
    }

    /**
     * Draining the backlog: pop from the front and push until it is empty or
     * submitting reports busy; a push that fails after the pop is dropped.
     */
    method DrainBacklog(signals: seq<DrainSignal>) returns (popped: nat)
      requires |signals| >= |backlog|
      modifies this`backlog, this`submitted
      ensures popped <= |old(backlog)|
      ensures backlog == old(backlog)[popped..]
      ensures submitted == old(submitted) + Delivered(old(backlog)[..popped], signals[..popped])
      ensures forall k :: 0 <= k < popped ==> signals[k] != Busy
      ensures popped == |old(backlog)| || signals[popped] == Busy
      ensures (forall k :: 0 <= k < popped ==> signals[k] == Room) ==>
        submitted + backlog == old(submitted) + old(backlog)
    {
      popped := 0;
      while backlog != [] && signals[popped] != Busy
        invariant popped <= |old(backlog)|
        invariant backlog == old(backlog)[popped..]
        invariant submitted == old(submitted) + Delivered(old(backlog)[..popped], signals[..popped])
        invariant forall k :: 0 <= k < popped ==> signals[k] != Busy
        decreases |backlog|
      {
        var r := backlog[0];
        backlog := backlog[1..];
        if signals[popped] == Room {
          submitted := submitted + [r];
        }
        assert old(backlog)[..popped + 1][..popped] == old(backlog)[..popped];
        assert signals[..popped + 1][..popped] == signals[..popped];
        popped := popped + 1;
      }
      if forall k :: 0 <= k < popped ==> signals[k] == Room {
        DeliveredInOrder(old(backlog)[..popped], signals[..popped]);
        assert old(backlog)[..popped] + old(backlog)[popped..] == old(backlog);
      }
    }

    /**
     * One turn of the outer loop after the ring has been waited on: drain
     * the backlog, push the accept request again, then handle the reaped
     * completions in order until one of them panics. `trace` holds the
     * tables before each handled completion and after the last.
     */
    method Turn(signals: seq<DrainSignal>, acceptPushed: bool, completions: seq<Completion>, pushes: seq<bool>)
      returns (popped: nat, handled: nat, status: Status, ghost trace: seq<Tables>)
      requires |signals| >= |backlog| && |pushes| == |completions|
      modifies this
      ensures popped <= |old(backlog)| && (popped == |old(backlog)| || signals[popped] == Busy)
      ensures forall k :: 0 <= k < popped ==> signals[k] != Busy
      ensures !acceptPushed ==>
        && status == Panic(AcceptQueueFull) && handled == 0
        && State() == old(State()).(backlog := old(backlog)[popped..],
                                    submitted := old(submitted) + Delivered(old(backlog)[..popped], signals[..popped]))
      ensures acceptPushed ==> handled <= |completions| && |trace| == handled + 1 && trace[handled] == State()
      ensures acceptPushed ==>
        trace[0] == old(State()).(backlog := old(backlog)[popped..],
                                  submitted := old(submitted) + Delivered(old(backlog)[..popped], signals[..popped])
                                               + [AcceptOp(acceptIndex)])
      ensures acceptPushed ==>
        forall k :: 0 <= k < handled ==>
          Step(trace[k], completions[k], pushes[k], trace[k + 1], if k + 1 == handled then status else Continue)
      ensures status == Continue ==> handled == |completions|
      ensures acceptPushed && status.Panic? ==> 0 < handled
      ensures old(Valid()) ==> Valid()
    {
      ghost var valid0 := Valid();
      popped := DrainBacklog(signals);
      status := SubmitAccept(acceptPushed);
      handled := 0;
      trace := [State()];
      if status.Panic? {
        return;
      }
      ghost var start := State();
      while handled < |completions| && status == Continue
        invariant handled <= |completions| && |trace| == handled + 1 && trace[handled] == State()
        invariant trace[0] == start
        invariant status.Panic? ==> 0 < handled
        invariant forall k :: 0 <= k < handled ==>
          Step(trace[k], completions[k], pushes[k], trace[k + 1], if k + 1 == handled then status else Continue)
        invariant valid0 ==> Valid()
      {
        status := HandleCompletion(completions[handled], pushes[handled]);
        trace := trace + [State()];
        handled := handled + 1;
      }
    }
  }
}
