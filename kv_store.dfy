/**
 * The command interpreter `run_command`: a decoded command list
 * `[op, key]` or `[op, key, value]` applied to the in-memory store.
 */
module KvStore {
  import opened Wrappers
  import opened Wire

  /** A decoded payload: the bytes of one UTF-8 string. */
  type Text = seq<byte>

  /** The process-wide `HashMap<String, String>`. */
  type Store = map<Text, Text>

  /** "get" */
  const GetOp: Text := [0x67, 0x65, 0x74]
  /** "set" */
  const SetOp: Text := [0x73, 0x65, 0x74]
  /** "del" */
  const DelOp: Text := [0x64, 0x65, 0x6C]

  /** `HashMap::get`. */
  function Lookup(store: Store, key: Text): Option<Text> {
    if key in store then Some(store[key]) else None
  }

  /**
   * The indices `run_command` reads exist: `command[0]` always, `command[1]`
   * for get, set and del, `command[2]` for set. Any other list makes the
   * interpreter index out of range and panic.
   */
  predicate InRange(command: seq<Text>) {
    && |command| >= 1
    && (command[0] in {GetOp, SetOp, DelOp} ==> |command| >= 2)
    && (command[0] == SetOp ==> |command| >= 3)
  }

  /** The new store and the value the interpreter logs as its result. */
  datatype Outcome = Outcome(store: Store, result: Option<Text>)

  /** What `run_command` does to the store, and what it logs. */
  function Execute(command: seq<Text>, store: Store): (r: Outcome)
    requires InRange(command)
    ensures command[0] == GetOp ==> r.store == store && r.result == Lookup(store, command[1])
    ensures command[0] == SetOp ==>
      Lookup(r.store, command[1]) == Some(command[2]) && r.result == Lookup(store, command[1])
    ensures command[0] == DelOp ==>
      command[1] !in r.store && r.result == Lookup(store, command[1])
    ensures command[0] in {GetOp, SetOp, DelOp} ==>
      forall k :: k != command[1] ==> Lookup(r.store, k) == Lookup(store, k)
    ensures command[0] !in {GetOp, SetOp, DelOp} ==> r == Outcome(store, None)
  {
    var op := command[0];
    if op == GetOp then
      Outcome(store, Lookup(store, command[1]))
    else if op == SetOp then
      Outcome(store[command[1] := command[2]], Lookup(store, command[1]))
    else if op == DelOp then
      Outcome(store - {command[1]}, Lookup(store, command[1]))
    else
      Outcome(store, None)
  }

  /** A `get` after a `set` of the same key finds the value that was set. */
  lemma SetThenGet(key: Text, value: Text, store: Store)
    ensures Execute([GetOp, key], Execute([SetOp, key, value], store).store).result == Some(value)
  {
  }

  /** `del` of a key that is absent logs no previous value and changes nothing. */
  lemma DelAbsentIsNoop(key: Text, store: Store)
    requires key !in store
    ensures Execute([DelOp, key], store) == Outcome(store, None)
  {
  }

  /** Only the first three entries of a command list are ever read. */
  lemma TrailingEntriesIgnored(command: seq<Text>, extra: seq<Text>, store: Store)
    requires InRange(command)
    ensures InRange(command + extra)
    ensures Execute(command + extra, store) == Execute(command, store)
  {
    assert (command + extra)[0] == command[0];
    if command[0] in {GetOp, SetOp, DelOp} {
      assert (command + extra)[1] == command[1];
    }
    if command[0] == SetOp {
      assert (command + extra)[2] == command[2];
    }
  }
}
