/**
 `command_ok` of tools/net/replay_export.py: which bytes of a COMMAND record are exactly the numeric
 layout of a kept kind.
 */
module GameCommands {
  import opened Bytes

  /** The exact size of each kept kind but the game command. */
  const FIXED_SIZE: map<int, nat> :=
    map[0x03 := 8, 0x0A := 6, 0x0B := 7, 0x82 := 10, 0x83 := 7, 0x85 := 10, 0x86 := 10]

  /** Integer, real, boolean, object id, location. */
  const ARGUMENT_SIZE: map<int, nat> := map[0 := 4, 1 := 4, 2 := 1, 3 := 4, 6 := 12]

  const MAX_ARGUMENTS: nat := 0x10_0000
  const GAME_COMMAND: Byte := 0x04

  /** FIXED_SIZE's keys and the game command. */
  const KEEP_COMMANDS: set<int> := {0x03, 0x04, 0x0A, 0x0B, 0x82, 0x83, 0x85, 0x86}

  // ----- game commands and their encoding

  datatype Argument = Argument(kind: Byte, value: Bytes)

  /** The value has its kind's size, and a boolean is 0 or 1. */
  predicate IsArgument(a: Argument) {
    a.kind in ARGUMENT_SIZE && |a.value| == ARGUMENT_SIZE[a.kind] && (a.kind == 2 ==> a.value[0] <= 1)
  }

  function EncodeArgument(a: Argument): Bytes {
    [a.kind] + a.value
  }

  function EncodeArguments(args: seq<Argument>): Bytes {
    if args == [] then [] else EncodeArgument(args[0]) + EncodeArguments(args[1..])
  }

  /** Slot, execution frame, message type and player; then the arguments. */
  datatype GameCommand = GameCommand(head: Bytes, args: seq<Argument>)

  ghost predicate AreArguments(args: seq<Argument>) {
    forall k :: 0 <= k < |args| ==> IsArgument(args[k])
  }

  ghost predicate IsGameCommand(g: GameCommand) {
    |g.head| == 8 && |g.args| <= MAX_ARGUMENTS && AreArguments(g.args)
  }

  function EncodeGameCommand(g: GameCommand): Bytes {
    [GAME_COMMAND] + g.head + Pack(|g.args|, 4) + EncodeArguments(g.args)
  }

  ghost predicate Encodes(cmd: Bytes, g: GameCommand) {
    IsGameCommand(g) && cmd == EncodeGameCommand(g)
  }

  /** What the export lets through: a fixed layout of the right size, or the encoding of a game command. */
  ghost predicate IsCommand(cmd: Bytes) {
    || (cmd != [] && cmd[0] in FIXED_SIZE && |cmd| == FIXED_SIZE[cmd[0]])
    || (exists g: GameCommand :: Encodes(cmd, g))
  }

  // ----- reading arguments

  /** One turn of the argument loop: an argument starts at pos. */
  predicate StartsArgument(cmd: Bytes, pos: nat) {
    && pos < |cmd|
    && cmd[pos] in ARGUMENT_SIZE
    && (cmd[pos] == 2 ==> pos + 1 < |cmd| && cmd[pos + 1] <= 1)
  }

  /** n arguments from pos end where the command ends. */
  predicate ReadsArguments(cmd: Bytes, pos: nat, n: nat)
    decreases n
  {
    if n == 0 then pos == |cmd|
    else StartsArgument(cmd, pos) && ReadsArguments(cmd, pos + 1 + ARGUMENT_SIZE[cmd[pos]], n - 1)
  }

  predicate CommandOkOf(cmd: Bytes)
    requires cmd != []
  {
    if cmd[0] in FIXED_SIZE then |cmd| == FIXED_SIZE[cmd[0]]
    else
      && cmd[0] == GAME_COMMAND
      && |cmd| >= 13
      && Field(cmd, 9, 4) <= MAX_ARGUMENTS
      && ReadsArguments(cmd, 13, Field(cmd, 9, 4))
  }

  method CommandOk(cmd: Bytes) returns (ok: bool)
    requires cmd != []
    ensures ok <==> IsCommand(cmd)
  {
    CommandOkIsCommand(cmd);
    var kind := cmd[0];
    if kind in FIXED_SIZE {
      return |cmd| == FIXED_SIZE[kind];
    }
    if kind != GAME_COMMAND || |cmd| < 13 {
      return false;
    }
    var argc := Field(cmd, 9, 4);
    if argc > MAX_ARGUMENTS {
      return false;
    }
    ok := ReadArguments(cmd, argc);
  }

  method ReadArguments(cmd: Bytes, argc: nat) returns (ok: bool)
    ensures ok <==> ReadsArguments(cmd, 13, argc)
  {
    var pos: nat := 13;
    for i := 0 to argc
      invariant ReadsArguments(cmd, 13, argc) == ReadsArguments(cmd, pos, argc - i)
    {
      if pos >= |cmd| || cmd[pos] !in ARGUMENT_SIZE {
        return false;
      }
      if cmd[pos] == 2 && (pos + 1 >= |cmd| || cmd[pos + 1] > 1) {
        return false;
      }
      pos := pos + 1 + ARGUMENT_SIZE[cmd[pos]];
    }
    ok := pos == |cmd|;
  }

  ghost predicate EncodesArguments(rest: Bytes, args: seq<Argument>, n: nat) {
    |args| == n && AreArguments(args) && rest == EncodeArguments(args)
  }

  /** What the loop accepts is the encoding of n arguments. */
  lemma {:induction false} ReadArgumentsEncode(cmd: Bytes, pos: nat, n: nat) returns (args: seq<Argument>)
    requires ReadsArguments(cmd, pos, n)
    ensures pos <= |cmd| && EncodesArguments(cmd[pos..], args, n)
    decreases n
  {
    if n == 0 {
      args := [];
    } else {
      var kind := cmd[pos];
      var next := pos + 1 + ARGUMENT_SIZE[kind];
      var more := ReadArgumentsEncode(cmd, next, n - 1);
      args := FirstArgument(cmd, pos, next, more, n);
    }
  }

  lemma FirstArgument(cmd: Bytes, pos: nat, next: nat, more: seq<Argument>, n: nat) returns (args: seq<Argument>)
    requires n > 0 && StartsArgument(cmd, pos) && next == pos + 1 + ARGUMENT_SIZE[cmd[pos]] <= |cmd|
    requires EncodesArguments(cmd[next..], more, n - 1)
    ensures EncodesArguments(cmd[pos..], args, n)
  {
    var a := Argument(cmd[pos], cmd[pos + 1..next]);
    assert IsArgument(a);
    args := [a] + more;
    assert args[1..] == more;
    assert cmd[pos..] == EncodeArgument(a) + cmd[next..];
  }

  /** And every encoding of n arguments is accepted. */
  lemma {:induction false} EncodedArgumentsRead(cmd: Bytes, pos: nat, args: seq<Argument>, n: nat)
    requires pos <= |cmd| && EncodesArguments(cmd[pos..], args, n)
    ensures ReadsArguments(cmd, pos, n)
    decreases n
  {
    if n > 0 {
      var next := SkipArgument(cmd, pos, args);
      EncodedArgumentsRead(cmd, next, args[1..], n - 1);
    }
  }

  lemma SkipArgument(cmd: Bytes, pos: nat, args: seq<Argument>) returns (next: nat)
    requires pos <= |cmd| && args != [] && EncodesArguments(cmd[pos..], args, |args|)
    ensures StartsArgument(cmd, pos) && next == pos + 1 + ARGUMENT_SIZE[cmd[pos]] <= |cmd|
    ensures EncodesArguments(cmd[next..], args[1..], |args| - 1)
  {
    var a := args[0];
    var rest := cmd[pos..];
    assert IsArgument(a);
    assert rest[0] == a.kind && rest[1..1 + |a.value|] == a.value;
    assert cmd[pos] == a.kind;
    if a.kind == 2 {
      assert cmd[pos + 1] == rest[1] == a.value[0];
    }
    next := pos + 1 + |a.value|;
    assert cmd[next..] == rest[1 + |a.value|..] == EncodeArguments(args[1..]);
  }

  lemma MaxArgumentsFit()
    ensures MAX_ARGUMENTS < Pow256(4)
  {
    assert Pow256(4) == 0x1_0000_0000;
  }

  lemma OkIsEncoded(cmd: Bytes)
    requires cmd != [] && cmd[0] !in FIXED_SIZE && CommandOkOf(cmd)
    ensures exists g: GameCommand :: Encodes(cmd, g)
  {
    var n := Field(cmd, 9, 4);
    var args := ReadArgumentsEncode(cmd, 13, n);
    PackUnpack(cmd[9..13]);
    var g := GameCommand(cmd[1..9], args);
    assert cmd == [cmd[0]] + cmd[1..9] + cmd[9..13] + cmd[13..];
    assert Encodes(cmd, g);
  }

  lemma EncodedIsOk(cmd: Bytes, g: GameCommand)
    requires Encodes(cmd, g)
    ensures cmd != [] && cmd[0] !in FIXED_SIZE && CommandOkOf(cmd)
  {
    MaxArgumentsFit();
    UnpackPack(|g.args|, 4);
    assert cmd[0] == GAME_COMMAND;
    assert cmd[9..13] == Pack(|g.args|, 4);
    assert cmd[13..] == EncodeArguments(g.args);
    EncodedArgumentsRead(cmd, 13, g.args, |g.args|);
  }

  /** The check accepts exactly the fixed layouts and the encodings of game commands, of any length. */
  lemma CommandOkIsCommand(cmd: Bytes)
    requires cmd != []
    ensures CommandOkOf(cmd) <==> IsCommand(cmd)
  {
    if cmd[0] !in FIXED_SIZE && CommandOkOf(cmd) {
      OkIsEncoded(cmd);
    }
    if g: GameCommand :| Encodes(cmd, g) {
      EncodedIsOk(cmd, g);
    }
  }

  /** An accepted command is of a kept kind. */
  lemma CommandIsKept(cmd: Bytes)
    requires IsCommand(cmd)
    ensures cmd != [] && cmd[0] in KEEP_COMMANDS
  {
    if g: GameCommand :| Encodes(cmd, g) {
      assert cmd[0] == GAME_COMMAND;
    }
  }
}
