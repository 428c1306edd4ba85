/** The bytecode format (vm/vm.go, vm/debug.go, vm/opcodes.go): writing, splitting and decoding instructions. */
module Codec {
  import opened Common

  type Opcode = x: int | 0 <= x < 0x1_0000

  const NOOP: Opcode := 0
  const CATCH: Opcode := 1
  const CROAK: Opcode := 2
  const LOAD: Opcode := 3
  const RELOAD: Opcode := 4
  const MAP: Opcode := 5
  const MOVE: Opcode := 6
  const HALT: Opcode := 7
  const INCMP: Opcode := 8
  const MSINK: Opcode := 9
  const MOUT: Opcode := 10
  const MNEXT: Opcode := 11
  const MPREV: Opcode := 12
  const MAX_OPCODE: Opcode := 12

  /** One decoded instruction, as it reaches a parse handler. */
  datatype Instr =
    | Catch(sym: Bytes, sig: u32, mode: bool)
    | Croak(sig: u32, mode: bool)
    | Load(sym: Bytes, size: u32)
    | Reload(sym: Bytes)
    | Map(sym: Bytes)
    | Move(sym: Bytes)
    | Halt
    | InCmp(sym: Bytes, sel: Bytes)
    | MSink
    | MOut(title: Bytes, choice: Bytes)
    | MNext(title: Bytes, choice: Bytes)
    | MPrev(title: Bytes, choice: Bytes)

  /** A parser's answer: a value and the remaining code, an error and the code it returns, or a panic. */
  datatype Parsed<+T> = Ok(value: T, rest: Bytes) | Bad(rest: Bytes) | Panic

  // ----- numbers -----

  function Pow256(n: nat): (r: nat)
    ensures r >= 1
  {
    if n == 0 then 1 else 256 * Pow256(n - 1)
  }

  /** The big-endian value of a byte string. */
  function FromBytes(s: Bytes): (r: nat)
    ensures r < Pow256(|s|)
  {
    if s == [] then 0 else FromBytes(s[..|s| - 1]) * 256 + s[|s| - 1]
  }

  lemma FourBytes()
    ensures Pow256(1) == 0x100 && Pow256(2) == 0x1_0000 && Pow256(3) == 0x100_0000 && Pow256(4) == 0x1_0000_0000
  {
  }

  lemma {:induction false} ShortNumber(s: Bytes)
    requires |s| <= 4
    ensures FromBytes(s) < 0x1_0000_0000
  {
    FourBytes();
    assert Pow256(0) == 1;
  }

  lemma FromBytesZero(s: Bytes)
    ensures FromBytes([0] + s) == FromBytes(s)
  {
    if s != [] {
      assert ([0] + s)[..|s|] == [0] + s[..|s| - 1];
    }
  }

  /** Leading zero bytes do not change a number. */
  lemma {:induction false} LeadingZeros(k: nat, s: Bytes)
    ensures FromBytes(seq(k, _ => 0) + s) == FromBytes(s)
  {
    if k == 0 {
      assert seq(k, _ => 0) + s == s;
    } else {
      assert seq(k, _ => 0) + s == [0] + (seq(k - 1, _ => 0) + s);
      LeadingZeros(k - 1, s);
      FromBytesZero(seq(k - 1, _ => 0) + s);
    }
  }

  // ----- writing -----

  /** The arguments of one NewLine call; `byteargs` is None for nil. */
  datatype Line = Line(op: Opcode, strargs: seq<Bytes>, byteargs: Option<Bytes>, numargs: Bytes)

  /** A length-prefixed argument; the prefix is the length as a `uint8`. */
  function Prefixed(arg: Bytes): Bytes {
    [|arg| % 256] + arg
  }

  function PrefixedAll(args: seq<Bytes>): Bytes {
    if args == [] then [] else Prefixed(args[0]) + PrefixedAll(args[1..])
  }

  lemma {:induction false} PrefixedSnoc(args: seq<Bytes>, arg: Bytes)
    ensures PrefixedAll(args + [arg]) == PrefixedAll(args) + Prefixed(arg)
  {
    if args == [] {
      assert args + [arg] == [arg];
      assert [arg][1..] == [];
    } else {
      assert (args + [arg])[1..] == args[1..] + [arg];
      PrefixedSnoc(args[1..], arg);
    }
  }

  function Arguments(l: Line): Bytes {
    PrefixedAll(l.strargs) + (if l.byteargs.Some? then Prefixed(l.byteargs.value) else []) + l.numargs
  }

  /** The bytes of one instruction: two bytes of opcode, then its arguments. */
  function LineBytes(l: Line): Bytes {
    [l.op / 256, l.op % 256] + Arguments(l)
  }

  /** One more argument behind the opcode. */
  lemma AddPrefixed(opcode: Bytes, args: seq<Bytes>, i: nat)
    requires i < |args|
    ensures opcode + PrefixedAll(args[..i]) + [|args[i]| % 256] + args[i] == opcode + PrefixedAll(args[..i + 1])
  {
    hide PrefixedAll;
    assert args[..i + 1] == args[..i] + [args[i]];
    PrefixedSnoc(args[..i], args[i]);
  }

  /** The parts of a line in the order in which they are appended. */
  lemma LineParts(op: Opcode, strargs: seq<Bytes>, byteargs: Option<Bytes>, numargs: Bytes)
    ensures strargs[..|strargs|] == strargs && PrefixedAll([]) == []
    ensures LineBytes(Line(op, strargs, byteargs, numargs)) ==
      (if byteargs.Some?
       then [op / 256, op % 256] + PrefixedAll(strargs) + [|byteargs.value| % 256] + byteargs.value
       else [op / 256, op % 256] + PrefixedAll(strargs)) + numargs
  {
    hide Prefixed, PrefixedAll;
    var opcode, symbols := [op / 256, op % 256], PrefixedAll(strargs);
    var bytes := if byteargs.Some? then Prefixed(byteargs.value) else [];
    Associates(opcode, symbols + bytes, numargs);
    Associates(opcode, symbols, bytes);
    NoArguments();
    if byteargs.Some? {
      PrefixedIs(byteargs.value);
      Associates(opcode + symbols, [|byteargs.value| % 256], byteargs.value);
    } else {
      assert symbols + bytes == symbols;
    }
    assert strargs[..|strargs|] == strargs;
  }

  lemma Associates(a: Bytes, b: Bytes, c: Bytes)
    ensures a + (b + c) == a + b + c
  {
  }

  lemma PrefixedIs(arg: Bytes)
    ensures Prefixed(arg) == [|arg| % 256] + arg
  {
  }

  lemma NoArguments()
    ensures PrefixedAll([]) == []
  {
  }

  method NewLine(instructionList: Bytes, instruction: Opcode, strargs: seq<Bytes>, byteargs: Option<Bytes>, numargs: Bytes)
    returns (r: Bytes)
    ensures r == instructionList + LineBytes(Line(instruction, strargs, byteargs, numargs))
  {
    hide PrefixedAll, LineBytes;
    var b: Bytes := [instruction / 256, instruction % 256];
    ghost var opcode := b;
    NoArguments();
    assert strargs[..0] == [];
    var i := 0;
    while i < |strargs|
      invariant 0 <= i <= |strargs|
      invariant b == opcode + PrefixedAll(strargs[..i])
    {
      AddPrefixed(opcode, strargs, i);
      b := b + [|strargs[i]| % 256];
      b := b + strargs[i];
      i := i + 1;
    }
    LineParts(instruction, strargs, byteargs, numargs);
    if byteargs.Some? {
      b := b + [|byteargs.value| % 256];
      b := b + byteargs.value;
    }
    b := b + numargs;
    return instructionList + b;
  }

  // ----- splitting -----

  /** The opcode in front of `b`. */
  function OpSplit(b: Bytes): (r: Parsed<Opcode>)
    ensures r.Ok? ==> r.value <= MAX_OPCODE && |r.rest| == |b| - 2
    ensures !r.Panic?
  {
    if |b| < 2 then Bad(b)
    else
      var op := (b[0] as int) * 256 + b[1];
      if op > MAX_OPCODE then Bad(b) else Ok(op, b[2..])
  }

  /**
   The length-prefixed symbol in front of `b`. The end of the symbol is computed in `uint8`, so a
   prefix of 255 puts it before the start; a prefix that reaches exactly one byte too far passes the
   length test and then slices out of range.
   */
  function InstructionSplit(b: Bytes): (r: Parsed<Bytes>)
    ensures r.Ok? ==> |r.rest| + |r.value| < |b|
  {
    if |b| == 0 then Bad([])
    else
      var sz: int := b[0];
      if sz == 0 then Bad([])
      else if |b| < sz then Bad([])
      else if sz == 255 || |b| < 1 + sz then Panic
      else Ok(b[1..1 + sz], b[1 + sz..])
  }

  /** The length-prefixed number in front of `b`. Prefixes over four bytes skip their bytes and give 0. */
  function IntSplit(b: Bytes): (r: Parsed<u32>)
    ensures r.Ok? ==> |r.rest| < |b|
  {
    if |b| == 0 then Panic
    else
      var l: int := b[0];
      if |b| < 1 + l then Panic
      else if l == 0 then Ok(0, b[1..])
      else if l <= 4 then
        ShortNumber(b[1..1 + l]);
        Ok(FromBytes(b[1..1 + l]), b[1 + l..])
      else Ok(0, b[1 + l..])
  }

  /** The loop of the source: right-aligns the bytes in a four-byte array and reads that. */
  method IntSplitLoop(b: Bytes) returns (sz: u32, rest: Bytes)
    requires IntSplit(b).Ok?
    ensures Ok(sz, rest) == IntSplit(b)
  {
    var l: int := b[0];
    sz := l;
    rest := b[1..];
    if l > 0 {
      var r := new byte[4](_ => 0);
      var c := 0;
      var ll := (4 - l) % 256;
      var i := 0;
      while i < 4
        invariant 0 <= i <= 4
        invariant ll == (4 - l) % 256
        invariant c == if l <= 4 && i >= ll then i - ll else 0
        invariant forall k :: 0 <= k < 4 ==> r[k] == if l <= 4 && ll <= k < i then b[1 + k - ll] else 0
      {
        if i >= ll {
          r[i] := rest[c];
          c := c + 1;
        }
        i := i + 1;
      }
      ghost var kept := if l <= 4 then b[1..1 + l] else [];
      assert r[..] == seq(4 - |kept|, _ => 0) + kept;
      LeadingZeros(4 - |kept|, kept);
      ShortNumber(r[..]);
      assert FromBytes([]) == 0;
      sz := FromBytes(r[..]);
      rest := rest[l..];
    }
  }

  function ParseSym(b: Bytes): Parsed<Bytes> {
    InstructionSplit(b)
  }

  function ParseTwoSym(b: Bytes): Parsed<(Bytes, Bytes)> {
    match InstructionSplit(b)
    case Panic => Panic
    case Bad(r) => Bad(r)
    case Ok(one, r) =>
      match InstructionSplit(r)
      case Panic => Panic
      case Bad(r2) => Bad(r2)
      case Ok(two, r2) => Ok((one, two), r2)
  }

  function ParseSymLen(b: Bytes): Parsed<(Bytes, u32)> {
    match InstructionSplit(b)
    case Panic => Panic
    case Bad(r) => Bad(r)
    case Ok(sym, r) =>
      match IntSplit(r)
      case Panic => Panic
      case Bad(r2) => Bad(r2)
      case Ok(n, r2) => Ok((sym, n), r2)
  }

  function ParseSig(b: Bytes): Parsed<(u32, bool)> {
    match IntSplit(b)
    case Panic => Panic
    case Bad(r) => Bad(r)
    case Ok(sig, r) => if |r| == 0 then Bad(r) else Ok((sig, r[0] > 0), r[1..])
  }

  function ParseSymSig(b: Bytes): Parsed<(Bytes, u32, bool)> {
    match InstructionSplit(b)
    case Panic => Panic
    case Bad(r) => Bad(r)
    case Ok(sym, r) =>
      match ParseSig(r)
      case Panic => Panic
      case Bad(r2) => Bad(r2)
      case Ok(s, r2) => Ok((sym, s.0, s.1), r2)
  }

  /** The arguments of `op` in front of `b`. Opcode NOOP has none and reaches no handler. */
  function ParseArguments(op: Opcode, b: Bytes): (r: Parsed<Option<Instr>>)
    requires op <= MAX_OPCODE
    ensures !r.Panic? ==> |r.rest| <= |b|
  {
    if op == CATCH then
      match ParseSymSig(b)
      case Panic => Panic
      case Bad(r) => Bad(r)
      case Ok(v, r) => Ok(Some(Catch(v.0, v.1, v.2)), r)
    else if op == CROAK then
      match ParseSig(b)
      case Panic => Panic
      case Bad(r) => Bad(r)
      case Ok(v, r) => Ok(Some(Croak(v.0, v.1)), r)
    else if op == LOAD then
      match ParseSymLen(b)
      case Panic => Panic
      case Bad(r) => Bad(r)
      case Ok(v, r) => Ok(Some(Load(v.0, v.1)), r)
    else if op == RELOAD || op == MAP || op == MOVE then
      match ParseSym(b)
      case Panic => Panic
      case Bad(r) => Bad(r)
      case Ok(sym, r) => Ok(Some(if op == RELOAD then Reload(sym) else if op == MAP then Map(sym) else Move(sym)), r)
    else if op == INCMP || op == MOUT || op == MNEXT || op == MPREV then
      match ParseTwoSym(b)
      case Panic => Panic
      case Bad(r) => Bad(r)
      case Ok(v, r) =>
        Ok(Some(if op == INCMP then InCmp(v.0, v.1)
                else if op == MOUT then MOut(v.0, v.1)
                else if op == MNEXT then MNext(v.0, v.1)
                else MPrev(v.0, v.1)), r)
    else if op == HALT then Ok(Some(Halt), b)
    else if op == MSINK then Ok(Some(MSink), b)
    else Ok(None, b)
  }

  // ----- decoding a program -----

  datatype End = Finished | BadOpcode | Crashed

  /** The handler calls a decoding makes, and how it ends. */
  datatype Decoded = Decoded(calls: seq<Instr>, end: End)

  /**
   ParseAll on code. An error in an instruction's arguments is assigned to a variable that shadows the
   one tested afterwards: the instruction is skipped and decoding goes on with what the parser left.
   */
  function Decode(b: Bytes): Decoded
    decreases |b|
  {
    match OpSplit(b)
    case Panic => Decoded([], Crashed)
    case Bad(_) => Decoded([], BadOpcode)
    case Ok(op, bb) =>
      match ParseArguments(op, bb)
      case Panic => Decoded([], Crashed)
      case Bad(r) => if |r| == 0 then Decoded([], Finished) else Decode(r)
      case Ok(call, r) =>
        var here := if call.Some? then [call.value] else [];
        if |r| == 0 then Decoded(here, Finished)
        else
          var d := Decode(r);
          Decoded(here + d.calls, d.end)
  }

  lemma CallsAssociate(a: seq<Instr>, b: seq<Instr>, c: seq<Instr>)
    ensures (a + b) + c == a + (b + c)
  {
  }

  method ParseAll(code: Bytes) returns (calls: seq<Instr>, end: End)
    ensures Decoded(calls, end) == Decode(code)
  {
    hide ParseArguments, OpSplit;
    var b := code;
    calls := [];
    var running := true;
    while running
      invariant running ==> Decode(code) == Decoded(calls + Decode(b).calls, Decode(b).end)
      invariant !running ==> Decode(code) == Decoded(calls, Finished)
      decreases running, |b|
    {
      var split := OpSplit(b);
      if !split.Ok? {
        return calls, BadOpcode;
      }
      var args := ParseArguments(split.value, split.rest);
      match args {
        case Panic => return calls, Crashed;
        case Bad(r) =>
          b := r;
        case Ok(call, r) =>
          ghost var here := if call.Some? then [call.value] else [];
          if |r| > 0 {
            CallsAssociate(calls, here, Decode(r).calls);
          }
          b := r;
          if call.Some? {
            calls := calls + [call.value];
          }
      }
      if |b| == 0 {
        running := false;
      }
    }
    return calls, Finished;
  }
}
