/**
 * The per-completion dispatch step of the event loop, on values: the tables
 * the loop owns, one transition function per token variant, the invariant
 * on token and buffer ownership, and the lemmas that every transition keeps it.
 */
module Dispatch {
  import opened Wire
  import opened KvStore
  import opened Ring

  /** `MessageState`: which part of a frame a connection expects next. */
  datatype Phase = Header | Message

  /** `Token`: the operation an in-flight request belongs to. */
  datatype Token =
    | Accept
    | Read(fd: int, bufIndex: nat, phase: Phase)
    | Poll(fd: int, phase: Phase)

  /** The panics the dispatch step can hit; each ends the process. */
  datatype Fault =
    | VacantToken           // `token_alloc[token_index]` on a vacant slab entry
    | VacantBuffer          // `buf_alloc[buf_index]` on a vacant slab entry
    | MissingCommands       // `commands.get(&fd).unwrap()` when the fd sent nothing
    | CommandOutOfRange     // `run_command` indexes past the end of the list
    | SliceOutOfBounds      // `buf[..len]` past the end of the buffer
    | HeaderLengthMismatch  // `clone_from_slice` of a slice that is not 4 bytes long
    | InvalidUtf8           // `from_utf8(..).unwrap()` on a malformed payload
    | AcceptQueueFull       // `sq.push(&accept_op).expect(..)` on a full queue

  datatype Status = Continue | Panic(fault: Fault)

  /** The single-owner tables of the event loop, and the abstract submission log. */
  datatype Tables = Tables(
    tokens: map<nat, Token>,        // token_alloc: slab index to token
    bufPool: seq<nat>,              // bufpool: free buffer indices, top of the stack last
    buffers: map<nat, seq<byte>>,   // buf_alloc: slab index to buffer bytes
    commands: map<int, seq<Text>>,  // commands: fd to the payloads received so far
    storage: Store,                 // storage
    backlog: seq<Request>,          // backlog: deferred requests, front first
    submitted: seq<Request>)        // every request pushed into the submission queue, in order

  /** The receive size chosen when a poll completes (`size_to_read`). */
  function ReadSize(phase: Phase): (n: nat)
    ensures n <= BufferCapacity
    ensures phase == Header ==> n == HeaderSize
  {
    match phase
    case Header => HeaderSize
    case Message => MaxMsgSize
  }

  /** `sq.push(&op)`, and `backlog.push_back(op)` when the push fails. */
  function Submit(s: Tables, r: Request, pushed: bool): (s': Tables)
    ensures pushed ==> s'.submitted == s.submitted + [r] && s'.backlog == s.backlog
    ensures !pushed ==> s'.backlog == s.backlog + [r] && s'.submitted == s.submitted
    ensures s'.(submitted := s.submitted, backlog := s.backlog) == s
  {
    if pushed then s.(submitted := s.submitted + [r]) else s.(backlog := s.backlog + [r])
  }

  /** The tables once the Accept token is inserted and the first accept is pushed. */
  function Initial(acceptIndex: nat): Tables {
    Tables(map[acceptIndex := Accept], [], map[], map[], map[], [], [AcceptOp(acceptIndex)])
  }

  /** Accept completion: a Poll token for the new socket at a vacant index, and its poll. */
  function AcceptStep(s: Tables, fd: int, pushed: bool, pollIndex: nat): Tables {
    Submit(s.(tokens := s.tokens[pollIndex := Poll(fd, Header)]), PollOp(fd, pollIndex), pushed)
  }

  /** The buffer index a poll completion obtains: the top of the pool, or a vacant slab index. */
  predicate Acquirable(s: Tables, b: nat) {
    if s.bufPool != [] then b == s.bufPool[|s.bufPool| - 1] else b !in s.buffers
  }

  /** Poll completion: acquire buffer `b`, turn the token into a Read in place, submit a receive. */
  function PollStep(s: Tables, index: nat, pushed: bool, b: nat): (Tables, Status)
    requires index in s.tokens && s.tokens[index].Poll?
  {
    var t := s.tokens[index];
    if s.bufPool != [] && b !in s.buffers then (s, Panic(VacantBuffer))
    else
      var s1 :=
        if s.bufPool != [] then s.(bufPool := s.bufPool[..|s.bufPool| - 1])
        else s.(buffers := s.buffers[b := Zeroes(BufferCapacity)]);
      var s2 := s1.(tokens := s.tokens[index := Read(t.fd, b, t.phase)]);
      (Submit(s2, RecvOp(t.fd, b, ReadSize(t.phase), index), pushed), Continue)
  }

  /** Read completion of zero bytes: run the fd's commands, release the buffer, drop the token. */
  function CloseStep(s: Tables, index: nat): (Tables, Status)
    requires index in s.tokens && s.tokens[index].Read?
  {
    var t := s.tokens[index];
    if t.fd !in s.commands then (s, Panic(MissingCommands))
    else if !InRange(s.commands[t.fd]) then (s, Panic(CommandOutOfRange))
    else
      (s.(storage := Execute(s.commands[t.fd], s.storage).store,
          bufPool := s.bufPool + [t.bufIndex],
          tokens := s.tokens - {index}),
       Continue)
  }

  /** Header bytes received: close on a zero length, otherwise receive that many bytes. */
  function HeaderStep(s: Tables, index: nat, bytes: seq<byte>, pushed: bool): (Tables, Status)
    requires index in s.tokens && s.tokens[index].Read?
  {
    var t := s.tokens[index];
    if |bytes| != HeaderSize then (s, Panic(HeaderLengthMismatch))
    else
      var n := DecodeHeader(bytes);
      if n == 0 then
        (s.(bufPool := s.bufPool + [t.bufIndex], tokens := s.tokens - {index}), Continue)
      else
        var s1 := s.(tokens := s.tokens[index := Read(t.fd, t.bufIndex, Message)]);
        (Submit(s1, RecvOp(t.fd, t.bufIndex, n, index), pushed), Continue)
  }

  /** Payload bytes received: append them to the fd's commands, release the buffer, poll again. */
  function MessageStep(s: Tables, index: nat, bytes: seq<byte>, pushed: bool): (Tables, Status)
    requires index in s.tokens && s.tokens[index].Read?
  {
    var t := s.tokens[index];
    if !ValidUtf8(bytes) then (s, Panic(InvalidUtf8))
    else
      var received := if t.fd in s.commands then s.commands[t.fd] else [];
      var s1 := s.(commands := s.commands[t.fd := received + [bytes]],
                   bufPool := s.bufPool + [t.bufIndex],
                   tokens := s.tokens[index := Poll(t.fd, Header)]);
      (Submit(s1, PollOp(t.fd, index), pushed), Continue)
  }

  /** Read completion of `res > 0` bytes: the kernel has written `data`; take `buf[..res]`. */
  function ReceiveStep(s: Tables, index: nat, res: nat, data: seq<byte>, pushed: bool): (Tables, Status)
    requires index in s.tokens && s.tokens[index].Read?
  {
    var t := s.tokens[index];
    if t.bufIndex !in s.buffers then (s, Panic(VacantBuffer))
    else
      var buf := Overwrite(s.buffers[t.bufIndex], data);
      if res > |buf| then (s, Panic(SliceOutOfBounds))
      else
        var s1 := s.(buffers := s.buffers[t.bufIndex := buf]);
        var (s2, status) :=
          match t.phase
          case Header => HeaderStep(s1, index, buf[..res], pushed)
          case Message => MessageStep(s1, index, buf[..res], pushed);
        if status.Panic? then (s, status) else (s2, status)
  }

  /**
   * One completion handled by the loop body, from `s` to `s'`. The slab's
   * choice of a vacant index is left open: any unoccupied index will do.
   */
  ghost predicate Step(s: Tables, c: Completion, pushed: bool, s': Tables, status: Status) {
    if c.res < 0 then s' == s && status == Continue
    else if c.token !in s.tokens then s' == s && status == Panic(VacantToken)
    else
      match s.tokens[c.token]
      case Accept =>
        status == Continue && exists i :: i !in s.tokens && s' == AcceptStep(s, c.res, pushed, i)
      case Poll(_, _) =>
        exists b :: Acquirable(s, b) && (s', status) == PollStep(s, c.token, pushed, b)
      case Read(_, _, _) =>
        (s', status) == if c.res == 0 then CloseStep(s, c.token) else ReceiveStep(s, c.token, c.res, c.data, pushed)
  }

  /** Buffer `b` is attached to some Read token. */
  ghost predicate Held(tokens: map<nat, Token>, b: nat) {
    exists i :: i in tokens && tokens[i].Read? && tokens[i].bufIndex == b
  }

  /** The Accept token stays at its index, is the only one, and every Poll is in the header phase. */
  ghost predicate TokensValid(tokens: map<nat, Token>, acceptIndex: nat) {
    && acceptIndex in tokens && tokens[acceptIndex] == Accept
    && (forall i :: i in tokens && tokens[i].Accept? ==> i == acceptIndex)
    && (forall i :: i in tokens && tokens[i].Poll? ==> tokens[i].phase == Header)
  }

  /** Every buffer has the fixed capacity; the pool holds allocated indices, each once. */
  ghost predicate PoolValid(pool: seq<nat>, buffers: map<nat, seq<byte>>) {
    && (forall b :: b in buffers ==> |buffers[b]| == BufferCapacity)
    && (forall k :: 0 <= k < |pool| ==> pool[k] in buffers)
    && (forall k, l :: 0 <= k < l < |pool| ==> pool[k] != pool[l])
  }

  /** Each allocated buffer is either free in the pool or held by exactly one Read token. */
  ghost predicate BuffersOwned(tokens: map<nat, Token>, pool: seq<nat>, buffers: map<nat, seq<byte>>) {
    && (forall i :: i in tokens && tokens[i].Read? ==>
          tokens[i].bufIndex in buffers && tokens[i].bufIndex !in pool)
    && (forall i, j ::
          i in tokens && j in tokens && tokens[i].Read? && tokens[j].Read? &&
          tokens[i].bufIndex == tokens[j].bufIndex
          ==> i == j)
    && (forall b :: b in buffers ==> b in pool || Held(tokens, b))
  }

  ghost predicate Owned(tokens: map<nat, Token>, pool: seq<nat>, buffers: map<nat, seq<byte>>, acceptIndex: nat) {
    TokensValid(tokens, acceptIndex) && PoolValid(pool, buffers) && BuffersOwned(tokens, pool, buffers)
  }

  /** The invariant every transition keeps. */
  ghost predicate Inv(s: Tables, acceptIndex: nat) {
    Owned(s.tokens, s.bufPool, s.buffers, acceptIndex)
  }

  lemma InitialInv(acceptIndex: nat)
    ensures Inv(Initial(acceptIndex), acceptIndex)
  {
  }

  /** Inserting a Poll token at a vacant index. */
  lemma InsertPollKeepsOwned(tokens: map<nat, Token>, pool: seq<nat>, buffers: map<nat, seq<byte>>,
                             acceptIndex: nat, fd: int, pollIndex: nat)
    requires Owned(tokens, pool, buffers, acceptIndex) && pollIndex !in tokens
    ensures Owned(tokens[pollIndex := Poll(fd, Header)], pool, buffers, acceptIndex)
  {
    var tokens' := tokens[pollIndex := Poll(fd, Header)];
    forall b | b in buffers && b !in pool
      ensures Held(tokens', b)
    {
      var i :| i in tokens && tokens[i].Read? && tokens[i].bufIndex == b;
      assert tokens'[i] == tokens[i];
    }
  }

  /** A Poll token becomes a Read token holding the buffer popped from the top of the pool. */
  lemma PopKeepsOwned(tokens: map<nat, Token>, pool: seq<nat>, buffers: map<nat, seq<byte>>,
                      acceptIndex: nat, index: nat, fd: int)
    requires Owned(tokens, pool, buffers, acceptIndex)
    requires index in tokens && tokens[index].Poll? && pool != []
    ensures Owned(tokens[index := Read(fd, pool[|pool| - 1], Header)], pool[..|pool| - 1], buffers, acceptIndex)
  {
    var n := |pool| - 1;
    var b := pool[n];
    var tokens' := tokens[index := Read(fd, b, Header)];
    var pool' := pool[..n];
    forall k | 0 <= k < n ensures pool[k] != b {
      assert pool[k] != pool[n];
    }
    forall c | c in buffers && c !in pool'
      ensures Held(tokens', c)
    {
      if c == b {
        assert tokens'[index].bufIndex == b;
      } else {
        assert c !in pool;
        var i :| i in tokens && tokens[i].Read? && tokens[i].bufIndex == c;
        assert tokens'[i] == tokens[i];
      }
    }
  }

  /** A Poll token becomes a Read token holding a newly allocated buffer. */
  lemma AllocateKeepsOwned(tokens: map<nat, Token>, buffers: map<nat, seq<byte>>,
                           acceptIndex: nat, index: nat, fd: int, b: nat)
    requires Owned(tokens, [], buffers, acceptIndex)
    requires index in tokens && tokens[index].Poll? && b !in buffers
    ensures Owned(tokens[index := Read(fd, b, Header)], [], buffers[b := Zeroes(BufferCapacity)], acceptIndex)
  {
    var tokens' := tokens[index := Read(fd, b, Header)];
    forall c | c in buffers
      ensures Held(tokens', c)
    {
      var i :| i in tokens && tokens[i].Read? && tokens[i].bufIndex == c;
      assert tokens'[i] == tokens[i];
    }
    assert Held(tokens', b) by {
      assert tokens'[index].bufIndex == b;
    }
  }

  /**
   * The Read token at `index` gives its buffer back to the pool and is
   * removed, or replaced by a Poll token in the header phase.
   */
  lemma ReleaseKeepsOwned(tokens: map<nat, Token>, pool: seq<nat>, buffers: map<nat, seq<byte>>,
                          acceptIndex: nat, index: nat, tokens': map<nat, Token>)
    requires Owned(tokens, pool, buffers, acceptIndex)
    requires index in tokens && tokens[index].Read?
    requires tokens' == tokens - {index} || tokens' == tokens[index := Poll(tokens[index].fd, Header)]
    ensures Owned(tokens', pool + [tokens[index].bufIndex], buffers, acceptIndex)
  {
    var b := tokens[index].bufIndex;
    var pool' := pool + [b];
    forall k, l | 0 <= k < l < |pool'| ensures pool'[k] != pool'[l] {
      if l < |pool| {
        assert pool'[k] == pool[k] && pool'[l] == pool[l];
      } else {
        assert pool'[k] == pool[k];
      }
    }
    forall k | 0 <= k < |pool'| ensures pool'[k] in buffers {
      if k < |pool| { assert pool'[k] == pool[k]; }
    }
    forall c | c in buffers && c !in pool'
      ensures Held(tokens', c)
    {
      var i :| i in tokens && tokens[i].Read? && tokens[i].bufIndex == c;
      assert i != index;
      assert tokens'[i] == tokens[i];
    }
  }

  /** The header phase of a Read token moves on to the payload phase, keeping its buffer. */
  lemma ContinueKeepsOwned(tokens: map<nat, Token>, pool: seq<nat>, buffers: map<nat, seq<byte>>,
                           acceptIndex: nat, index: nat)
    requires Owned(tokens, pool, buffers, acceptIndex)
    requires index in tokens && tokens[index].Read?
    ensures Owned(tokens[index := Read(tokens[index].fd, tokens[index].bufIndex, Message)], pool, buffers, acceptIndex)
  {
    var tokens' := tokens[index := Read(tokens[index].fd, tokens[index].bufIndex, Message)];
    forall c | c in buffers && c !in pool
      ensures Held(tokens', c)
    {
      var i :| i in tokens && tokens[i].Read? && tokens[i].bufIndex == c;
      assert tokens'[i].bufIndex == c;
    }
  }

  /** A receive rewrites the bytes of an allocated buffer without changing its length. */
  lemma RefillKeepsOwned(tokens: map<nat, Token>, pool: seq<nat>, buffers: map<nat, seq<byte>>,
                         acceptIndex: nat, b: nat, buf: seq<byte>)
    requires Owned(tokens, pool, buffers, acceptIndex)
    requires b in buffers && |buf| == BufferCapacity
    ensures Owned(tokens, pool, buffers[b := buf], acceptIndex)
  {
  }

  lemma AcceptKeepsInv(s: Tables, acceptIndex: nat, fd: int, pushed: bool, pollIndex: nat)
    requires Inv(s, acceptIndex) && pollIndex !in s.tokens
    ensures Inv(AcceptStep(s, fd, pushed, pollIndex), acceptIndex)
  {
    InsertPollKeepsOwned(s.tokens, s.bufPool, s.buffers, acceptIndex, fd, pollIndex);
  }

  lemma PollKeepsInv(s: Tables, acceptIndex: nat, index: nat, pushed: bool, b: nat)
    requires Inv(s, acceptIndex) && index in s.tokens && s.tokens[index].Poll? && Acquirable(s, b)
    ensures PollStep(s, index, pushed, b).1 == Continue
    ensures Inv(PollStep(s, index, pushed, b).0, acceptIndex)
  {
    var fd := s.tokens[index].fd;
    if s.bufPool != [] {
      assert b in s.buffers;
      PopKeepsOwned(s.tokens, s.bufPool, s.buffers, acceptIndex, index, fd);
    } else {
      AllocateKeepsOwned(s.tokens, s.buffers, acceptIndex, index, fd, b);
    }
  }

  lemma CloseKeepsInv(s: Tables, acceptIndex: nat, index: nat)
    requires Inv(s, acceptIndex) && index in s.tokens && s.tokens[index].Read?
    ensures Inv(CloseStep(s, index).0, acceptIndex)
  {
    if CloseStep(s, index).1 == Continue {
      ReleaseKeepsOwned(s.tokens, s.bufPool, s.buffers, acceptIndex, index, s.tokens - {index});
    }
  }

  lemma HeaderKeepsInv(s: Tables, acceptIndex: nat, index: nat, bytes: seq<byte>, pushed: bool)
    requires Inv(s, acceptIndex) && index in s.tokens && s.tokens[index].Read?
    ensures Inv(HeaderStep(s, index, bytes, pushed).0, acceptIndex)
  {
    if |bytes| == HeaderSize {
      if DecodeHeader(bytes) == 0 {
        ReleaseKeepsOwned(s.tokens, s.bufPool, s.buffers, acceptIndex, index, s.tokens - {index});
      } else {
        ContinueKeepsOwned(s.tokens, s.bufPool, s.buffers, acceptIndex, index);
      }
    }
  }

  lemma MessageKeepsInv(s: Tables, acceptIndex: nat, index: nat, bytes: seq<byte>, pushed: bool)
    requires Inv(s, acceptIndex) && index in s.tokens && s.tokens[index].Read?
    ensures Inv(MessageStep(s, index, bytes, pushed).0, acceptIndex)
  {
    if ValidUtf8(bytes) {
      var t := s.tokens[index];
      ReleaseKeepsOwned(s.tokens, s.bufPool, s.buffers, acceptIndex, index, s.tokens[index := Poll(t.fd, Header)]);
    }
  }

  lemma ReceiveKeepsInv(s: Tables, acceptIndex: nat, index: nat, res: nat, data: seq<byte>, pushed: bool)
    requires Inv(s, acceptIndex) && index in s.tokens && s.tokens[index].Read?
    ensures ReceiveStep(s, index, res, data, pushed).1 != Panic(VacantBuffer)
    ensures Inv(ReceiveStep(s, index, res, data, pushed).0, acceptIndex)
  {
    var t := s.tokens[index];
    var buf := Overwrite(s.buffers[t.bufIndex], data);
    if res <= |buf| {
      var s1 := s.(buffers := s.buffers[t.bufIndex := buf]);
      RefillKeepsOwned(s.tokens, s.bufPool, s.buffers, acceptIndex, t.bufIndex, buf);
      assert Inv(s1, acceptIndex);
      match t.phase
      case Header => HeaderKeepsInv(s1, acceptIndex, index, buf[..res], pushed);
      case Message => MessageKeepsInv(s1, acceptIndex, index, buf[..res], pushed);
    }
  }

  /**
   * Every completion keeps the invariant, and no step ever reaches a vacant
   * buffer slot: a released buffer is never used through a stale token.
   */
  lemma StepKeepsInv(s: Tables, acceptIndex: nat, c: Completion, pushed: bool, s': Tables, status: Status)
    requires Inv(s, acceptIndex) && Step(s, c, pushed, s', status)
    ensures Inv(s', acceptIndex)
    ensures status != Panic(VacantBuffer)
  {
    if c.res >= 0 && c.token in s.tokens {
      match s.tokens[c.token]
      case Accept =>
        var i :| i !in s.tokens && s' == AcceptStep(s, c.res, pushed, i);
        AcceptKeepsInv(s, acceptIndex, c.res, pushed, i);
      case Poll(_, _) =>
        var b :| Acquirable(s, b) && (s', status) == PollStep(s, c.token, pushed, b);
        PollKeepsInv(s, acceptIndex, c.token, pushed, b);
      case Read(_, _, _) =>
        if c.res == 0 {
          CloseKeepsInv(s, acceptIndex, c.token);
        } else {
          ReceiveKeepsInv(s, acceptIndex, c.token, c.res, c.data, pushed);
        }
    }
  }

  /** A completion for a Read token is a close or a receive. */
  lemma ReadStep(s: Tables, c: Completion, pushed: bool, s': Tables, status: Status)
    requires c.res >= 0 && c.token in s.tokens && s.tokens[c.token].Read?
    requires Step(s, c, pushed, s', status)
    ensures (s', status) == if c.res == 0 then CloseStep(s, c.token) else ReceiveStep(s, c.token, c.res, c.data, pushed)
  {
  }
}
