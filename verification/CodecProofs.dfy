/** Decoding inverts encoding, for programs of any length. */
module CodecProofs {
  import opened Common
  import opened Codec

  /** The symbols the reader can split: `1 + sz` must not wrap a `uint8`. */
  predicate GoodSym(s: Bytes) {
    1 <= |s| <= 254
  }

  /** The NewLine calls that make an instruction of their opcode, as the documented format has it. */
  predicate WellFormed(l: Line) {
    && (forall i :: 0 <= i < |l.strargs| ==> GoodSym(l.strargs[i]))
    && (l.byteargs.Some? ==> |l.byteargs.value| <= 4)
    && if l.op == CATCH then |l.strargs| == 1 && l.byteargs.Some? && |l.numargs| == 1
       else if l.op == CROAK then |l.strargs| == 0 && l.byteargs.Some? && |l.numargs| == 1
       else if l.op == LOAD then |l.strargs| == 1 && l.byteargs.Some? && |l.numargs| == 0
       else if l.op == RELOAD || l.op == MAP || l.op == MOVE then
         |l.strargs| == 1 && l.byteargs.None? && |l.numargs| == 0
       else if l.op == INCMP || l.op == MOUT || l.op == MNEXT || l.op == MPREV then
         |l.strargs| == 2 && l.byteargs.None? && |l.numargs| == 0
       else (l.op == HALT || l.op == MSINK) && |l.strargs| == 0 && l.byteargs.None? && |l.numargs| == 0
  }

  function NumberOf(l: Line): u32
    requires WellFormed(l)
  {
    if l.byteargs.Some? then
      ShortNumber(l.byteargs.value);
      FromBytes(l.byteargs.value)
    else 0
  }

  /** The instruction a well-formed line stands for. */
  function Meaning(l: Line): Instr
    requires WellFormed(l)
  {
    var n := NumberOf(l);
    if l.op == CATCH then Catch(l.strargs[0], n, l.numargs[0] > 0)
    else if l.op == CROAK then Croak(n, l.numargs[0] > 0)
    else if l.op == LOAD then Load(l.strargs[0], n)
    else if l.op == RELOAD then Reload(l.strargs[0])
    else if l.op == MAP then Map(l.strargs[0])
    else if l.op == MOVE then Move(l.strargs[0])
    else if l.op == INCMP then InCmp(l.strargs[0], l.strargs[1])
    else if l.op == MOUT then MOut(l.strargs[0], l.strargs[1])
    else if l.op == MNEXT then MNext(l.strargs[0], l.strargs[1])
    else if l.op == MPREV then MPrev(l.strargs[0], l.strargs[1])
    else if l.op == HALT then Halt
    else MSink
  }

  lemma PrefixedSlices(arg: Bytes, rest: Bytes)
    requires |arg| <= 255
    ensures
      var b := Prefixed(arg) + rest;
      |b| >= 1 + |arg| && b[0] == |arg| && b[1..1 + |arg|] == arg && b[1 + |arg|..] == rest
  {
    var n := |arg|;
    var b := Prefixed(arg) + rest;
    assert n % 256 == n;
    assert b == [n] + arg + rest;
    assert b[1..1 + n] == arg;
    assert b[1 + n..] == rest;
  }

  lemma SplitPrefixed(arg: Bytes, rest: Bytes)
    requires GoodSym(arg)
    ensures InstructionSplit(Prefixed(arg) + rest) == Ok(arg, rest)
  {
    PrefixedSlices(arg, rest);
  }

  lemma SplitNumber(n: Bytes, rest: Bytes)
    requires |n| <= 4
    ensures FromBytes(n) < 0x1_0000_0000 && IntSplit(Prefixed(n) + rest) == Ok(FromBytes(n), rest)
  {
    hide FromBytes, Prefixed;
    ShortNumber(n);
    NoNumber();
    PrefixedSlices(n, rest);
  }

  lemma NoNumber()
    ensures FromBytes([]) == 0
  {
  }

  lemma PrefixedOne(args: seq<Bytes>)
    ensures |args| == 0 ==> PrefixedAll(args) == []
    ensures |args| == 1 ==> PrefixedAll(args) == Prefixed(args[0])
    ensures |args| == 2 ==> PrefixedAll(args) == Prefixed(args[0]) + Prefixed(args[1])
  {
    if |args| == 1 {
      assert args[1..] == [];
    } else if |args| == 2 {
      assert args[1..] == [args[1]];
      assert args[1..][1..] == [];
    }
  }

  /** Reading the arguments of a well-formed line gives back its meaning and stops at its end. */
  lemma ReadArguments(l: Line, rest: Bytes)
    requires WellFormed(l)
    ensures ParseArguments(l.op, Arguments(l) + rest) == Ok(Some(Meaning(l)), rest)
  {
    hide InstructionSplit, IntSplit, Prefixed;
    PrefixedOne(l.strargs);
    if l.byteargs.Some? {
      var n := Prefixed(l.byteargs.value);
      SplitNumber(l.byteargs.value, l.numargs + rest);
      if l.op == CROAK {
        assert Arguments(l) + rest == n + (l.numargs + rest);
      } else {
        assert Arguments(l) + rest == Prefixed(l.strargs[0]) + (n + (l.numargs + rest));
        SplitPrefixed(l.strargs[0], n + (l.numargs + rest));
      }
      if l.op == LOAD {
        assert l.numargs + rest == rest;
      } else {
        assert (l.numargs + rest)[1..] == rest;
      }
    } else if |l.strargs| == 1 {
      assert Arguments(l) + rest == Prefixed(l.strargs[0]) + rest;
      SplitPrefixed(l.strargs[0], rest);
    } else if |l.strargs| == 2 {
      assert Arguments(l) + rest == Prefixed(l.strargs[0]) + (Prefixed(l.strargs[1]) + rest);
      SplitPrefixed(l.strargs[0], Prefixed(l.strargs[1]) + rest);
      SplitPrefixed(l.strargs[1], rest);
    } else {
      assert Arguments(l) + rest == rest;
    }
  }

  lemma ReadOpcode(l: Line, rest: Bytes)
    requires WellFormed(l)
    ensures OpSplit(LineBytes(l) + rest) == Ok(l.op, Arguments(l) + rest)
  {
    var b := LineBytes(l) + rest;
    assert b[0] == l.op / 256 && b[1] == l.op % 256;
    assert b[2..] == Arguments(l) + rest;
  }

  // ----- opcodes -----

  /** The opcode a line begins with, by the instruction it stands for. */
  lemma OpcodeOf(l: Line)
    requires WellFormed(l)
    ensures LineBytes(l)[..2] == [0,
      match Meaning(l)
      case Catch(_, _, _) => 1
      case Croak(_, _) => 2
      case Load(_, _) => 3
      case Reload(_) => 4
      case Map(_) => 5
      case Move(_) => 6
      case Halt => 7
      case InCmp(_, _) => 8
      case MSink => 9
      case MOut(_, _) => 10
      case MNext(_, _) => 11
      case MPrev(_, _) => 12]
  {
    hide Arguments;
  }

  /** Two bytes are an opcode when they are a number up to 12; fewer are none. */
  lemma OpcodesAre(b: Bytes)
    ensures OpSplit(b).Ok? <==> |b| >= 2 && b[0] == 0 && b[1] <= 12
    ensures OpSplit(b).Ok? ==> OpSplit(b) == Ok(b[1], b[2..])
    ensures !OpSplit(b).Ok? ==> OpSplit(b) == Bad(b)
  {
  }

  // ----- programs -----

  /** The code that successive NewLine calls build. */
  function ProgramBytes(p: seq<Line>): Bytes {
    if p == [] then [] else LineBytes(p[0]) + ProgramBytes(p[1..])
  }

  function Meanings(p: seq<Line>): (r: seq<Instr>)
    requires forall l :: l in p ==> WellFormed(l)
    ensures |r| == |p|
    ensures forall i :: 0 <= i < |p| ==> r[i] == Meaning(p[i])
  {
    if p == [] then [] else [Meaning(p[0])] + Meanings(p[1..])
  }

  lemma {:induction false} ProgramSnoc(p: seq<Line>, l: Line)
    ensures ProgramBytes(p + [l]) == ProgramBytes(p) + LineBytes(l)
  {
    if p == [] {
      assert p + [l] == [l];
      assert [l][1..] == [];
    } else {
      assert (p + [l])[1..] == p[1..] + [l];
      ProgramSnoc(p[1..], l);
    }
  }

  /** Building a program line by line, as every caller of NewLine does. */
  method Build(p: seq<Line>) returns (b: Bytes)
    ensures b == ProgramBytes(p)
  {
    b := [];
    var i := 0;
    while i < |p|
      invariant 0 <= i <= |p|
      invariant b == ProgramBytes(p[..i])
    {
      assert p[..i + 1] == p[..i] + [p[i]];
      ProgramSnoc(p[..i], p[i]);
      b := NewLine(b, p[i].op, p[i].strargs, p[i].byteargs, p[i].numargs);
      i := i + 1;
    }
    assert p[..i] == p;
  }

  /**
   A program in front of any further code: the decoder delivers exactly its instructions, then goes
   on with that code.
   */
  lemma {:induction false} DecodePrefix(p: seq<Line>, rest: Bytes)
    requires forall l :: l in p ==> WellFormed(l)
    requires rest != []
    ensures Decode(ProgramBytes(p) + rest) == Decoded(Meanings(p) + Decode(rest).calls, Decode(rest).end)
  {
    hide Decode, LineBytes, WellFormed, Meaning;
    if p == [] {
      assert ProgramBytes(p) + rest == rest;
    } else {
      var tail := ProgramBytes(p[1..]) + rest;
      Associates(LineBytes(p[0]), ProgramBytes(p[1..]), rest);
      DecodePrefix(p[1..], rest);
      DecodeLine(p[0], tail);
      assert Meanings(p) + Decode(rest).calls == [Meaning(p[0])] + (Meanings(p[1..]) + Decode(rest).calls);
    }
  }

  /** The first line of some code. */
  lemma DecodeLine(l: Line, rest: Bytes)
    requires WellFormed(l) && rest != []
    ensures Decode(LineBytes(l) + rest) == Decoded([Meaning(l)] + Decode(rest).calls, Decode(rest).end)
  {
    ReadOpcode(l, rest);
    ReadArguments(l, rest);
    hide OpSplit, ParseArguments, LineBytes, Arguments;
  }

  /** Round trip: a non-empty program decodes to its instructions and every byte is consumed. */
  lemma {:induction false} RoundTrip(p: seq<Line>)
    requires p != [] && forall l :: l in p ==> WellFormed(l)
    ensures Decode(ProgramBytes(p)) == Decoded(Meanings(p), Finished)
  {
    hide Decode, LineBytes, WellFormed, Meaning, ProgramBytes;
    var last := |p| - 1;
    assert p == p[..last] + [p[last]];
    ProgramSnoc(p[..last], p[last]);
    DecodeLast(p[last]);
    DecodePrefix(p[..last], LineBytes(p[last]));
    assert Meanings(p) == Meanings(p[..last]) + [Meaning(p[last])];
  }

  lemma DecodeLast(l: Line)
    requires WellFormed(l)
    ensures LineBytes(l) != [] && Decode(LineBytes(l)) == Decoded([Meaning(l)], Finished)
  {
    ReadOpcode(l, []);
    ReadArguments(l, []);
    assert LineBytes(l) + [] == LineBytes(l) && Arguments(l) + [] == Arguments(l);
    hide OpSplit, ParseArguments, Arguments;
  }

  /** The encoding is uniquely decodable: equal code means equal instructions. */
  lemma UniquelyDecodable(p: seq<Line>, q: seq<Line>)
    requires p != [] && q != []
    requires (forall l :: l in p ==> WellFormed(l)) && forall l :: l in q ==> WellFormed(l)
    ensures ProgramBytes(p) == ProgramBytes(q) ==> Meanings(p) == Meanings(q)
  {
    RoundTrip(p);
    RoundTrip(q);
  }

  /** The empty program is the one program that is reported as an error. */
  lemma EmptyProgram()
    ensures Decode([]) == Decoded([], BadOpcode)
  {
  }

  // ----- errors in arguments -----

  /** How the documented decoder ends: as the real one, or by reporting an error in some arguments. */
  datatype StrictEnd = AsDecoded(end: End) | ArgumentError

  /** The documented decoder, which fails on any parse error it meets. */
  function StrictDecode(b: Bytes): (seq<Instr>, StrictEnd)
    decreases |b|
  {
    match OpSplit(b)
    case Panic => ([], AsDecoded(Crashed))
    case Bad(_) => ([], AsDecoded(BadOpcode))
    case Ok(op, bb) =>
      match ParseArguments(op, bb)
      case Panic => ([], AsDecoded(Crashed))
      case Bad(_) => ([], ArgumentError)
      case Ok(call, r) =>
        var here := if call.Some? then [call.value] else [];
        if |r| == 0 then (here, AsDecoded(Finished))
        else (here + StrictDecode(r).0, StrictDecode(r).1)
  }

  /** No parser returns code along with an error. */
  lemma ErrorsLeaveNothing(op: Opcode, b: Bytes)
    requires op <= MAX_OPCODE
    ensures ParseArguments(op, b).Bad? ==> ParseArguments(op, b).rest == []
  {
  }

  /**
   The documentation has the decoder fail on any parse error. On all code, the real decoder agrees with
   the documented one except that an error in an instruction's arguments ends it as if it had finished.
   */
  lemma {:induction false} ArgumentErrorsAreSwallowed(b: Bytes)
    ensures Decode(b).calls == StrictDecode(b).0
    ensures Decode(b).end == if StrictDecode(b).1.ArgumentError? then Finished else StrictDecode(b).1.end
    decreases |b|
  {
    var split := OpSplit(b);
    if split.Ok? {
      ErrorsLeaveNothing(split.value, split.rest);
      var args := ParseArguments(split.value, split.rest);
      hide ParseArguments, OpSplit;
      if args.Ok? && args.rest != [] {
        ArgumentErrorsAreSwallowed(args.rest);
      }
    }
  }

  /** Such code exists: an instruction cut off after its opcode, whatever program precedes it. */
  lemma CutInstructionIsDropped(p: seq<Line>, op: Opcode)
    requires forall l :: l in p ==> WellFormed(l)
    requires op in {CATCH, LOAD, RELOAD, MAP, MOVE, INCMP, MOUT, MNEXT, MPREV}
    ensures Decode(ProgramBytes(p) + [0, op]) == Decoded(Meanings(p), Finished)
    ensures StrictDecode([0, op]) == ([], ArgumentError)
  {
    var b: Bytes := [0, op];
    assert b[2..] == [];
    assert InstructionSplit([]) == Bad([]);
    assert ParseArguments(op, []) == Bad([]);
    assert Decode(b) == Decoded([], Finished);
    DecodePrefix(p, b);
    assert Meanings(p) + [] == Meanings(p);
  }
}
