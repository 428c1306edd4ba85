/** The emitting half of the assembler (asm/asm.go): what it writes is what the machine reads. */
module Assembler {
  import opened Common
  import opened Codec
  import opened CodecProofs

  // ----- the size of a number -----

  function Pow2(k: nat): (r: nat)
    ensures r >= 1
  {
    if k == 0 then 1 else 2 * Pow2(k - 1)
  }

  /** The integer part of the binary logarithm, which the source takes in floating point. */
  function FloorLog2(n: nat): nat
    requires n > 0
  {
    if n == 1 then 0 else 1 + FloorLog2(n / 2)
  }

  function NumSize(n: nat): nat
    requires n > 0
  {
    FloorLog2(n) / 8 + 1
  }

  lemma {:induction false} Log2Bounds(n: nat)
    requires n > 0
    ensures Pow2(FloorLog2(n)) <= n < Pow2(FloorLog2(n) + 1)
  {
    if n > 1 {
      Log2Bounds(n / 2);
    }
  }

  lemma {:induction false} Pow2Grows(j: nat, k: nat)
    requires j <= k
    ensures Pow2(j) <= Pow2(k)
    decreases k
  {
    if j < k {
      Pow2Grows(j, k - 1);
    }
  }

  lemma {:induction false} Pow256IsPow2(j: nat)
    ensures Pow256(j) == Pow2(8 * j)
  {
    if j > 0 {
      Pow256IsPow2(j - 1);
      var k := 8 * (j - 1);
      assert Pow2(k + 2) == 2 * Pow2(k + 1) == 4 * Pow2(k);
      assert Pow2(k + 4) == 2 * Pow2(k + 3) == 4 * Pow2(k + 2);
      assert Pow2(k + 6) == 2 * Pow2(k + 5) == 4 * Pow2(k + 4);
      assert Pow2(k + 8) == 2 * Pow2(k + 7) == 4 * Pow2(k + 6);
    }
  }

  /** NumSize is the least number of bytes that holds the number. */
  lemma NumSizeIsLeast(n: nat)
    requires n > 0
    ensures n < Pow256(NumSize(n))
    ensures forall k: nat :: n < Pow256(k) ==> NumSize(n) <= k
  {
    var l, q := FloorLog2(n), FloorLog2(n) / 8;
    Log2Bounds(n);
    Pow256IsPow2(q + 1);
    Pow2Grows(l + 1, 8 * (q + 1));
    forall k: nat | n < Pow256(k) ensures q + 1 <= k {
      if k <= q {
        Pow256IsPow2(k);
        Pow2Grows(8 * k, l);
      }
    }
  }

  /** `k` bytes of a number, high bytes first. */
  function BigEndian(n: nat, k: nat): (r: Bytes)
    ensures |r| == k
  {
    if k == 0 then [] else BigEndian(n / 256, k - 1) + [n % 256]
  }

  lemma {:induction false} BigEndianValue(n: nat, k: nat)
    requires n < Pow256(k)
    ensures FromBytes(BigEndian(n, k)) == n
  {
    if k > 0 {
      BigEndianValue(n / 256, k - 1);
      var r := BigEndian(n, k);
      assert r[..k - 1] == BigEndian(n / 256, k - 1);
    }
  }

  lemma {:induction false} BigEndianSuffix(n: nat, j: nat, k: nat)
    requires k <= j
    ensures BigEndian(n, j)[j - k..] == BigEndian(n, k)
    decreases k
  {
    if k > 0 {
      BigEndianSuffix(n / 256, j - 1, k - 1);
      assert BigEndian(n, j)[j - k..] == BigEndian(n / 256, j - 1)[j - k..] + [n % 256];
    }
  }

  /** The bytes of a number argument behind its length. */
  function NumberBytes(n: u32): Bytes {
    if n == 0 then [0] else BigEndian(n, NumSize(n))
  }

  /** At most four bytes, which the machine reads back as the number. */
  lemma NumberReads(n: u32)
    ensures 1 <= |NumberBytes(n)| <= 4 && FromBytes(NumberBytes(n)) == n
    ensures forall rest: Bytes :: IntSplit(Prefixed(NumberBytes(n)) + rest) == Ok(n, rest)
  {
    if n > 0 {
      NumSizeIsLeast(n);
      FourBytes();
      BigEndianValue(n, NumSize(n));
    } else {
      assert NumberBytes(n)[..0] == [];
      assert FromBytes([]) == 0;
    }
    hide NumberBytes, IntSplit, FromBytes, Prefixed;
    forall rest: Bytes ensures IntSplit(Prefixed(NumberBytes(n)) + rest) == Ok(n, rest) {
      SplitNumber(NumberBytes(n), rest);
    }
  }

  // ----- the parsed line -----

  /** The arguments of one line of assembly as the parser delivers them; `desc` is for batch lines only. */
  datatype Arg = Arg(sym: Option<Bytes>, size: Option<u32>, flag: Option<byte>, selector: Option<Bytes>, desc: Option<Bytes>)

  const STAR: Bytes := [42]

  /** A number in decimal digits. */
  function Decimal(n: nat): (r: Bytes)
    ensures r != [] && forall i :: 0 <= i < |r| ==> 48 <= r[i] <= 57
  {
    if n < 10 then [48 + n] else Decimal(n / 10) + [48 + n % 10]
  }

  lemma {:induction false} DecimalShort(n: nat, k: nat)
    requires n < Pow10(k) && k > 0
    ensures |Decimal(n)| <= k
  {
    if n >= 10 {
      DecimalShort(n / 10, k - 1);
    }
  }

  function Pow10(k: nat): nat {
    if k == 0 then 1 else 10 * Pow10(k - 1)
  }

  /** A nil pointer is dereferenced, a symbol is too long, or bytes are written. */
  datatype Emitted = NilPointer | TooBig | Wrote(bytes: Bytes)

  function SymOut(s: Option<Bytes>): Emitted {
    if s.None? then NilPointer else if |s.value| > 255 then TooBig else Wrote(Prefixed(s.value))
  }

  function SizeOut(n: Option<u32>): Emitted {
    if n.None? then NilPointer else Wrote(Prefixed(NumberBytes(n.value)))
  }

  function FlagOut(f: Option<byte>): Emitted {
    if f.None? then NilPointer else Wrote([f.value])
  }

  /** One part of an argument list after the other; the first failure ends it. */
  function Then(a: Emitted, b: Emitted): Emitted {
    if !a.Wrote? then a else if !b.Wrote? then b else Wrote(a.bytes + b.bytes)
  }

  /** The two symbols of a line: a number stands for its digits, and a leading `*` goes last. */
  function TwoSymOut(a: Arg): Emitted {
    if a.size.Some? then Then(SymOut(a.sym), SymOut(Some(Decimal(a.size.value))))
    else if a.selector.Some? then
      if a.sym.None? then NilPointer
      else if a.sym.value == STAR then Then(SymOut(a.selector), SymOut(a.sym))
      else Then(SymOut(a.sym), SymOut(a.selector))
    else Then(SymOut(Some([])), SymOut(Some([])))
  }

  /** The arguments of a line, chosen by which of its fields are present. A lone symbol that is too long is left out. */
  function ArgsOut(op: Opcode, a: Arg): Emitted {
    if a.selector.Some? then if op == MOUT then Then(SymOut(a.sym), SymOut(a.selector)) else TwoSymOut(a)
    else if a.size.Some? then
      if a.sym.None? then Then(SizeOut(a.size), FlagOut(a.flag))
      else if a.flag.Some? then Then(Then(SymOut(a.sym), SizeOut(a.size)), FlagOut(a.flag))
      else if op == LOAD then Then(SymOut(a.sym), SizeOut(a.size))
      else TwoSymOut(a)
    else if a.sym.None? || SymOut(a.sym).TooBig? then Wrote([])
    else SymOut(a.sym)
  }

  function LineOut(op: Opcode, a: Arg): Emitted {
    Then(Wrote([op / 256, op % 256]), ArgsOut(op, a))
  }

  // ----- the writer -----

  /** A `bytes.Buffer` that is only written to. */
  class Buffer {
    var data: Bytes

    constructor ()
      ensures data == []
    {
      data := [];
    }

    method Write(b: Bytes) returns (n: nat)
      modifies this
      ensures data == old(data) + b && n == |b|
    {
      data := data + b;
      n := |b|;
    }

    method WriteOpcode(op: Opcode) returns (n: nat)
      modifies this
      ensures data == old(data) + [op / 256, op % 256] && n == 2
    {
      n := Write([op / 256, op % 256]);
    }

    /** An error writes nothing. */
    method WriteSym(s: Bytes) returns (n: Option<nat>)
      modifies this
      ensures n.None? <==> SymOut(Some(s)).TooBig?
      ensures data == if n.None? then old(data) else old(data) + SymOut(Some(s)).bytes
    {
      var sz := |s|;
      if sz > 255 {
        return None;
      }
      var n0 := Write([sz]);
      var n1 := Write(s);
      n := Some(n1);
    }

    method WriteSize(m: u32) returns (n: Option<nat>)
      modifies this
      ensures n.Some? && data == old(data) + Prefixed(NumberBytes(m))
    {
      if m == 0 {
        var n0 := Write([1, 0]);
        return Some(n0);
      }
      var bn := BigEndian(m, 4);
      var sz := NumSize(m);
      NumSizeIsLeast(m);
      FourBytes();
      if sz > 4 {
        return None;
      }
      var n0 := Write([sz]);
      var c := 4 - sz;
      BigEndianSuffix(m, 4, sz);
      var n1 := Write(bn[c..]);
      n := Some(n1);
    }
  }

  /** How an emitter ends: well, with an error, or in a nil dereference. */
  datatype Put = Done | Refused | Nil

  /** The emitter ended as `e` says, and added exactly its bytes when all went well. */
  predicate Puts(e: Emitted, put: Put, before: Bytes, after: Bytes) {
    match e
    case NilPointer => put == Nil
    case TooBig => put == Refused
    case Wrote(bytes) => put == Done && after == before + bytes
  }

  method PutSym(b: Buffer, s: Option<Bytes>) returns (put: Put)
    modifies b
    ensures Puts(SymOut(s), put, old(b.data), b.data)
  {
    if s.None? {
      return Nil;
    }
    var n := b.WriteSym(s.value);
    return if n.None? then Refused else Done;
  }

  /** Two symbols in the order given. */
  method PutSyms(b: Buffer, first: Option<Bytes>, second: Option<Bytes>) returns (put: Put)
    modifies b
    ensures Puts(Then(SymOut(first), SymOut(second)), put, old(b.data), b.data)
  {
    put := PutSym(b, first);
    if put == Done {
      put := PutSym(b, second);
    }
  }

  method PutSize(b: Buffer, n: Option<u32>) returns (put: Put)
    modifies b
    ensures Puts(SizeOut(n), put, old(b.data), b.data)
  {
    if n.None? {
      return Nil;
    }
    var written := b.WriteSize(n.value);
    return if written.None? then Refused else Done;
  }

  method PutFlag(b: Buffer, f: Option<byte>) returns (put: Put)
    modifies b
    ensures Puts(FlagOut(f), put, old(b.data), b.data)
  {
    if f.None? {
      return Nil;
    }
    var n := b.Write([f.value]);
    return Done;
  }

  method ParseTwoSym(b: Buffer, a: Arg) returns (put: Put)
    modifies b
    ensures Puts(TwoSymOut(a), put, old(b.data), b.data)
  {
    hide Decimal, Prefixed;
    if a.size.Some? {
      if a.sym.None? {
        return Nil;
      }
      put := PutSyms(b, a.sym, Some(Decimal(a.size.value)));
    } else if a.selector.Some? {
      if a.sym.None? {
        return Nil;
      }
      if a.sym.value == STAR {
        put := PutSyms(b, a.selector, a.sym);
      } else {
        put := PutSyms(b, a.sym, a.selector);
      }
    } else {
      put := PutSyms(b, Some([]), Some([]));
    }
  }

  method ParseSig(b: Buffer, a: Arg) returns (put: Put)
    modifies b
    ensures Puts(Then(Then(SymOut(a.sym), SizeOut(a.size)), FlagOut(a.flag)), put, old(b.data), b.data)
  {
    hide SymOut, SizeOut, FlagOut;
    put := PutSym(b, a.sym);
    if put == Done {
      put := PutSize(b, a.size);
    }
    if put == Done {
      put := PutFlag(b, a.flag);
    }
  }

  method ParseSized(b: Buffer, a: Arg) returns (put: Put)
    modifies b
    ensures Puts(Then(SymOut(a.sym), SizeOut(a.size)), put, old(b.data), b.data)
  {
    hide SymOut, SizeOut;
    put := PutSym(b, a.sym);
    if put == Done {
      put := PutSize(b, a.size);
    }
  }

  method ParseFlagged(b: Buffer, a: Arg) returns (put: Put)
    modifies b
    ensures Puts(Then(SizeOut(a.size), FlagOut(a.flag)), put, old(b.data), b.data)
  {
    hide SizeOut, FlagOut;
    put := PutSize(b, a.size);
    if put == Done {
      put := PutFlag(b, a.flag);
    }
  }

  /** One line of assembly. Nothing reaches the output unless the whole line was emitted. */
  method ParseOne(op: Opcode, a: Arg, w: Buffer) returns (put: Put)
    modifies w
    ensures Puts(LineOut(op, a), put, old(w.data), w.data)
    ensures put != Done ==> w.data == old(w.data)
  {
    hide SymOut, SizeOut, FlagOut, TwoSymOut;
    var b := new Buffer();
    var n := b.WriteOpcode(op);
    put := Done;
    if a.selector.Some? {
      if op == MOUT {
        put := PutSyms(b, a.sym, a.selector);
      } else {
        put := ParseTwoSym(b, a);
      }
    } else if a.size.Some? {
      if a.sym.None? {
        put := ParseFlagged(b, a);
      } else if a.flag.Some? {
        put := ParseSig(b, a);
      } else if op == LOAD {
        put := ParseSized(b, a);
      } else {
        put := ParseTwoSym(b, a);
      }
    } else if a.sym.Some? {
      var ignored := b.WriteSym(a.sym.value);
      SymOutSome(a.sym.value);
    }
    if put == Done {
      var flushed := w.Write(b.data);
    }
  }

  lemma SymOutSome(s: Bytes)
    ensures SymOut(Some(s)).TooBig? || SymOut(Some(s)).Wrote?
  {
  }

  // ----- what is read back -----

  /** The lines the language documents, with symbols the machine can read. */
  predicate Documented(op: Opcode, a: Arg) {
    if op == LOAD then GoodSymArg(a.sym) && a.size.Some? && a.flag.None? && a.selector.None?
    else if op == CATCH then GoodSymArg(a.sym) && a.size.Some? && a.flag.Some? && a.selector.None?
    else if op == CROAK then a.sym.None? && a.size.Some? && a.flag.Some? && a.selector.None?
    else if op == RELOAD || op == MAP || op == MOVE then
      GoodSymArg(a.sym) && a.size.None? && a.flag.None? && a.selector.None?
    else if op == INCMP || op == MOUT || op == MNEXT || op == MPREV then
      GoodSymArg(a.sym) && a.flag.None? && (if a.size.Some? then a.selector.None? else GoodSymArg(a.selector))
    else (op == HALT || op == MSINK) && a.sym.None? && a.size.None? && a.flag.None? && a.selector.None?
  }

  predicate GoodSymArg(s: Option<Bytes>) {
    s.Some? && GoodSym(s.value)
  }

  /** The instruction a documented line asks for. */
  function Intended(op: Opcode, a: Arg): Instr
    requires Documented(op, a)
  {
    if op == LOAD then Load(a.sym.value, a.size.value)
    else if op == CATCH then Catch(a.sym.value, a.size.value, a.flag.value > 0)
    else if op == CROAK then Croak(a.size.value, a.flag.value > 0)
    else if op == RELOAD then Reload(a.sym.value)
    else if op == MAP then Map(a.sym.value)
    else if op == MOVE then Move(a.sym.value)
    else if op == HALT then Halt
    else if op == MSINK then MSink
    else
      var second := if a.size.Some? then Decimal(a.size.value) else a.selector.value;
      if op == MOUT then MOut(a.sym.value, second)
      else
        var swap := a.size.None? && a.sym.value == [42];
        var one, two := if swap then second else a.sym.value, if swap then [42] else second;
        if op == INCMP then InCmp(one, two) else if op == MNEXT then MNext(one, two) else MPrev(one, two)
  }

  /** The NewLine call a documented line amounts to. */
  function AsLine(op: Opcode, a: Arg): Line
    requires Documented(op, a)
  {
    if op == LOAD then Line(op, [a.sym.value], Some(NumberBytes(a.size.value)), [])
    else if op == CATCH then Line(op, [a.sym.value], Some(NumberBytes(a.size.value)), [a.flag.value])
    else if op == CROAK then Line(op, [], Some(NumberBytes(a.size.value)), [a.flag.value])
    else if op == RELOAD || op == MAP || op == MOVE then Line(op, [a.sym.value], None, [])
    else if op == HALT || op == MSINK then Line(op, [], None, [])
    else
      var second := if a.size.Some? then Decimal(a.size.value) else a.selector.value;
      if op != MOUT && a.size.None? && a.sym.value == [42] then Line(op, [second, [42]], None, [])
      else Line(op, [a.sym.value, second], None, [])
  }

  lemma DecimalIsSym(n: u32)
    ensures GoodSym(Decimal(n))
  {
    assert Pow10(10) == 10_000_000_000;
    DecimalShort(n, 10);
    hide Decimal;
  }

  lemma LineMeans(op: Opcode, a: Arg)
    requires Documented(op, a)
    ensures WellFormed(AsLine(op, a)) && Meaning(AsLine(op, a)) == Intended(op, a)
  {
    if a.size.Some? {
      NumberReads(a.size.value);
      DecimalIsSym(a.size.value);
    }
    hide NumberBytes, Decimal, Prefixed, FromBytes, IntSplit;
  }

  lemma Parts(op: Opcode, parts: Emitted, args: Bytes)
    ensures parts == Wrote(args) ==> Then(Wrote([op / 256, op % 256]), parts) == Wrote([op / 256, op % 256] + args)
  {
  }

  lemma ArgsEmitted(op: Opcode, a: Arg)
    requires Documented(op, a)
    ensures ArgsOut(op, a) == Wrote(Arguments(AsLine(op, a)))
  {
    var l := AsLine(op, a);
    PrefixedOne(l.strargs);
    if a.size.Some? {
      DecimalIsSym(a.size.value);
    }
    hide NumberBytes, Decimal, Prefixed, PrefixedAll;
    ArgumentParts(l);
  }

  lemma ArgumentParts(l: Line)
    ensures l.byteargs.None? && l.numargs == [] ==> Arguments(l) == PrefixedAll(l.strargs)
    ensures l.byteargs.Some? && l.numargs == [] ==> Arguments(l) == PrefixedAll(l.strargs) + Prefixed(l.byteargs.value)
    ensures l.byteargs.Some? && |l.strargs| == 0 ==> Arguments(l) == Prefixed(l.byteargs.value) + l.numargs
  {
    hide Prefixed;
  }

  /** Emission writes the line, and the line means what was asked for. */
  lemma LineEmitted(op: Opcode, a: Arg)
    requires Documented(op, a)
    ensures WellFormed(AsLine(op, a)) && Meaning(AsLine(op, a)) == Intended(op, a)
    ensures LineOut(op, a) == Wrote(LineBytes(AsLine(op, a)))
  {
    LineMeans(op, a);
    ArgsEmitted(op, a);
    assert AsLine(op, a).op == op;
    hide ArgsOut, Arguments, AsLine, WellFormed, Meaning, Intended, Documented;
    Parts(op, ArgsOut(op, a), Arguments(AsLine(op, a)));
  }

  function Emission(lines: seq<(Opcode, Arg)>): Emitted {
    if lines == [] then Wrote([]) else Then(LineOut(lines[0].0, lines[0].1), Emission(lines[1..]))
  }

  /** Assembles line after line; the first failure ends it, and the lines before it stay written. */
  method Assemble(lines: seq<(Opcode, Arg)>, w: Buffer) returns (put: Put)
    modifies w
    ensures Puts(Emission(lines), put, old(w.data), w.data)
  {
    hide LineOut;
    put := Done;
    var i := 0;
    while i < |lines| && put == Done
      invariant 0 <= i <= |lines|
      invariant put == Done ==>
        if Emission(lines[i..]).Wrote?
        then Puts(Emission(lines), Done, old(w.data), w.data + Emission(lines[i..]).bytes)
        else Emission(lines) == Emission(lines[i..])
      invariant put != Done ==> Puts(Emission(lines), put, old(w.data), w.data)
    {
      assert lines[i..][0] == lines[i] && lines[i..][1..] == lines[i + 1..];
      put := ParseOne(lines[i].0, lines[i].1, w);
      i := i + 1;
    }
  }

  /** The program behind documented lines. */
  function Program(lines: seq<(Opcode, Arg)>): (r: seq<Line>)
    requires forall l :: l in lines ==> Documented(l.0, l.1)
    ensures |r| == |lines| && forall i :: 0 <= i < |r| ==> r[i] == AsLine(lines[i].0, lines[i].1)
  {
    if lines == [] then [] else [AsLine(lines[0].0, lines[0].1)] + Program(lines[1..])
  }

  lemma {:induction false} ProgramEmitted(lines: seq<(Opcode, Arg)>)
    requires forall l :: l in lines ==> Documented(l.0, l.1)
    ensures Emission(lines) == Wrote(ProgramBytes(Program(lines)))
  {
    hide LineOut, LineBytes, AsLine;
    if lines != [] {
      LineEmitted(lines[0].0, lines[0].1);
      ProgramEmitted(lines[1..]);
      assert Program(lines)[1..] == Program(lines[1..]);
    }
  }

  /** A documented program assembles without an error, and decodes to the instructions its lines ask for. */
  lemma {:induction false} AssembledProgramDecodes(lines: seq<(Opcode, Arg)>)
    requires lines != [] && forall l :: l in lines ==> Documented(l.0, l.1)
    ensures Emission(lines).Wrote?
    ensures var d := Decode(Emission(lines).bytes);
      d.end == Finished && |d.calls| == |lines| && forall i :: 0 <= i < |lines| ==> d.calls[i] == Intended(lines[i].0, lines[i].1)
  {
    ProgramEmitted(lines);
    var p := Program(lines);
    forall i | 0 <= i < |lines| ensures WellFormed(p[i]) && Meaning(p[i]) == Intended(lines[i].0, lines[i].1) {
      LineEmitted(lines[i].0, lines[i].1);
    }
    hide Decode, ProgramBytes, Emission, WellFormed, Meaning, Intended, Documented, AsLine;
    RoundTrip(p);
  }

  /** The symbol of a one-symbol line is dropped, without an error, exactly when it is too long to write. */
  lemma LoneSymbolDropped(op: Opcode, s: Bytes)
    requires op == RELOAD || op == MAP || op == MOVE
    ensures LineOut(op, Arg(Some(s), None, None, None, None)) == Wrote([0, op]) <==> |s| > 255
    ensures |s| > 255 ==> Decode([0, op]) == Decoded([], Finished)
  {
    var b: Bytes := [0, op];
    assert b[2..] == [];
    assert InstructionSplit([]) == Bad([]);
    assert ParseArguments(op, []) == Bad([]);
  }
}
