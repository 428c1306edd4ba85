/** The client state (state/state.go, state/flag.go): navigation stack, page index and flag field. */
module States {
  import opened Common

  const FLAG_READIN := 0
  const FLAG_INMATCH := 1
  const FLAG_WAIT := 2
  const FLAG_LOADFAIL := 3
  const FLAG_DIRTY := 4
  const FLAG_RESERVED := 5
  const FLAG_TERMINATE := 6
  const FLAG_LANG := 7
  const FLAG_USERSTART := 8

  /** The deepest stack that `Down` still extends. */
  const MAX_LEVEL := 128

  /** Client code may write the flags above the reserved one, TERMINATE and LANG included. */
  predicate IsWriteableFlag(flag: u32) {
    flag > FLAG_RESERVED
  }

  /** The flag field as a value: one truth value a flag. */
  type Flags = seq<bool>

  datatype StateV = StateV(
    path: seq<Bytes>, idx: u16, flags: Flags, moves: u32, input: Option<Bytes>, lastMove: byte)

  // ----- bytes as sets of bits -----

  /** `1 << i` in one byte. */
  function Mask(i: nat): bv8
    requires i < 8
  {
    match i
    case 0 => 1
    case 1 => 2
    case 2 => 4
    case 3 => 8
    case 4 => 16
    case 5 => 32
    case 6 => 64
    case _ => 128
  }

  predicate TestBit(b: bv8, i: nat)
    requires i < 8
  {
    b & Mask(i) > 0
  }

  /** Setting a bit sets that bit and keeps every other. */
  lemma SetOneBit(b: bv8, i: nat, j: nat)
    requires i < 8 && j < 8
    ensures TestBit(b | Mask(i), j) == (i == j || TestBit(b, j))
  {
  }

  /** Clearing a bit clears that bit and keeps every other. */
  lemma ClearOneBit(b: bv8, i: nat, j: nat)
    requires i < 8 && j < 8
    ensures TestBit(b & !Mask(i), j) == (i != j && TestBit(b, j))
  {
  }

  lemma SharedBit(a: bv8, b: bv8, i: nat)
    requires i < 8
    ensures ((a & Mask(i)) & b > 0) == (TestBit(a, i) && TestBit(b, i))
  {
  }

  /** Whether bit `i` of a byte field is set. */
  predicate BitAt(field: seq<bv8>, i: nat)
    requires i < 8 * |field|
  {
    TestBit(field[i / 8], i % 8)
  }

  function Wrap8(x: int): nat {
    x % 256
  }

  /** How many of `n` bytes GetIndex scans: it keeps `uint8` counters, so more than 256 bytes are cut short. */
  function Scanned(n: nat): (r: nat)
    ensures r <= n && (n <= 256 ==> r == n)
  {
    if n == 0 then 0 else Wrap8(n - 1) + 1
  }

  lemma ScannedBit(flags: seq<bv8>, field: seq<bv8>, i: nat, p: nat, q: nat)
    requires q < 8 && i == 8 * p + q && p < |flags| && p < |field|
    ensures (flags[p] & Mask(q)) & field[p] > 0 <==> Shared(field, flags, i)
    ensures (i + 1) % 8 == 0 <==> q == 7
  {
    hide Mask, TestBit;
    SharedBit(flags[p], field[p], q);
  }

  /** Both fields have bit `i`, and it is set in both. */
  ghost predicate Shared(field: seq<bv8>, flags: seq<bv8>, i: nat) {
    i < 8 * |field| && i < 8 * |flags| && BitAt(field, i) && BitAt(flags, i)
  }

  lemma SharedMeans(field: seq<bv8>, flags: seq<bv8>, size: nat)
    requires size <= 8 * |field|
    ensures |BitsOf(field, size)| == size && Scanned(|flags|) <= |flags|
    ensures (exists i :: 0 <= i < size && i < 8 * Scanned(|flags|) && BitsOf(field, size)[i] && BitAt(flags, i)) <==>
            (exists i :: 0 <= i < size && i < 8 * Scanned(|flags|) && Shared(field, flags, i))
  {
    hide BitAt, Scanned;
    LastScanned(|flags|);
    var n := 8 * Scanned(|flags|);
    if i :| 0 <= i < size && i < n && BitsOf(field, size)[i] && BitAt(flags, i) {
      assert Shared(field, flags, i);
    }
    if i :| 0 <= i < size && i < n && Shared(field, flags, i) {
      assert BitsOf(field, size)[i] && BitAt(flags, i);
    }
  }

  /** The index of the last byte scanned, from the length as a `uint8`. */
  lemma LastScanned(n: nat)
    ensures Scanned(0) == 0 && Scanned(n) <= n
    ensures n > 0 ==> Scanned(n) - 1 == Wrap8(Wrap8(n) - 1)
  {
  }

  /** Bytes needed for a field of `bits` bits, as a `uint8`. */
  function ToByteSize(bits: u32): (r: nat)
    ensures bits <= 2040 ==> 8 * r >= bits && 8 * (r - 1) < bits
  {
    if bits == 0 then 0
    else
      var n := bits % 8;
      var rounded := if n > 0 then Wrap32(bits + (8 - n)) else bits;
      (rounded / 8) % 256
  }

  /** More bits than 2040 wrap in the `uint8`. */
  lemma ByteSizeWraps(bits: u32)
    requires bits <= 0xFFFF_FFF8
    ensures ToByteSize(bits) == ((bits + 7) / 8) % 256
  {
    var q, n := bits / 8, bits % 8;
    if n > 0 {
      RoundUp(bits, q, n);
      WrapSmall(bits + (8 - n));
    } else {
      RoundDown(bits, q);
    }
    hide Wrap32;
  }

  lemma RoundUp(bits: nat, q: nat, n: nat)
    requires bits == 8 * q + n && 0 < n < 8
    ensures (bits + (8 - n)) / 8 == q + 1 == (bits + 7) / 8
  {
  }

  lemma RoundDown(bits: nat, q: nat)
    requires bits == 8 * q
    ensures bits / 8 == q == (bits + 7) / 8
  {
  }

  /** The truth values a byte field stands for. */
  function BitsOf(field: seq<bv8>, size: nat): (r: Flags)
    requires size <= 8 * |field|
    ensures |r| == size
    ensures forall i :: 0 <= i < size ==> r[i] == BitAt(field, i)
  {
    seq(size, i requires 0 <= i < size => BitAt(field, i))
  }

  /** `field` after writing bit `q` of its byte `p`. */
  function WriteBit(field: seq<bv8>, p: nat, q: nat, value: bool): (r: seq<bv8>)
    requires p < |field| && q < 8
    ensures |r| == |field|
  {
    field[p := if value then field[p] | Mask(q) else field[p] & !Mask(q)]
  }

  lemma WriteBitAt(field: seq<bv8>, p: nat, q: nat, value: bool, p': nat, q': nat)
    requires p < |field| && p' < |field| && q < 8 && q' < 8
    ensures TestBit(WriteBit(field, p, q, value)[p'], q') == if p == p' && q == q' then value else TestBit(field[p'], q')
  {
    if p == p' {
      SetOneBit(field[p], q, q');
      ClearOneBit(field[p], q, q');
    }
  }

  lemma BitAddress(i: nat, j: nat)
    ensures i == j <==> i / 8 == j / 8 && i % 8 == j % 8
  {
  }

  /** Writing the byte of flag `bit` changes that flag alone. */
  lemma FieldUpdate(field: seq<bv8>, size: nat, bit: nat, value: bool)
    requires bit < size <= 8 * |field|
    ensures BitsOf(WriteBit(field, bit / 8, bit % 8, value), size) == BitsOf(field, size)[bit := value]
  {
    hide TestBit, WriteBit;
    var field' := WriteBit(field, bit / 8, bit % 8, value);
    forall j | 0 <= j < size
      ensures BitAt(field', j) == if j == bit then value else BitAt(field, j)
    {
      BitAddress(j, bit);
      WriteBitAt(field, bit / 8, bit % 8, value, j / 8, j % 8);
    }
  }

  // ----- moves, on values -----

  function Where(s: StateV): Bytes {
    if s.path == [] then [] else s.path[|s.path| - 1]
  }

  /** `Down` panics on a full stack and on re-entering the node it is in. */
  predicate DownPanics(s: StateV, sym: Bytes) {
    |s.path| > MAX_LEVEL || (s.path != [] && s.path[|s.path| - 1] == sym)
  }

  function SDown(s: StateV, sym: Bytes): StateV {
    s.(path := s.path + [sym], idx := 0, moves := Wrap32(s.moves + 1), lastMove := 0)
  }

  function SUp(s: StateV): StateV
    requires s.path != []
  {
    s.(path := s.path[..|s.path| - 1], idx := 0, moves := Wrap32(s.moves + 1), lastMove := 1)
  }

  function SNext(s: StateV): StateV {
    s.(idx := Wrap16(s.idx + 1), moves := Wrap32(s.moves + 1), lastMove := 2)
  }

  function SPrevious(s: StateV): StateV
    requires s.idx > 0
  {
    s.(idx := s.idx - 1, moves := Wrap32(s.moves + 1), lastMove := 4)
  }

  function SRestart(s: StateV): StateV
    requires s.path != [] && |s.flags| >= 8
  {
    s.(path := s.path[..1], idx := 0, moves := 0, input := Some([]), lastMove := 0,
       flags := seq(8, _ => false) + s.flags[8..])
  }

  /** A restart leaves the top node on its first page, with empty input and the eight engine flags cleared; client flags stay. */
  lemma RestartMeans(s: StateV)
    requires s.path != [] && |s.flags| >= 8
    ensures var r := SRestart(s);
      && r.path == [s.path[0]] && r.idx == 0 && r.moves == 0 && r.input == Some([]) && r.lastMove == 0
      && |r.flags| == |s.flags| && forall i :: 0 <= i < |s.flags| ==> r.flags[i] == (i >= 8 && s.flags[i])
  {
  }

  /** How a move is remembered: a counter of all moves, and the kind of the last. */
  lemma MovesAreCounted(s: StateV, sym: Bytes)
    requires s.path != []
    ensures SDown(s, sym).moves == SUp(s).moves == SNext(s).moves == (s.moves + 1) % 0x1_0000_0000
    ensures s.idx > 0 ==> SPrevious(s).moves == (s.moves + 1) % 0x1_0000_0000 && SPrevious(s).lastMove == 4
    ensures SDown(s, sym).lastMove == 0 && SUp(s).lastMove == 1 && SNext(s).lastMove == 2
  {
  }

  datatype MoveResult = Moved(idx: u16) | NoRoot | AtFirstIndex

  // ----- the object -----

  class State {
    var ExecPath: seq<Bytes>
    const BitSize: u32
    var SizeIdx: u16
    const Flags: array<bv8>
    var Moves: u32
    var input: Option<Bytes>
    var lastMove: byte

    ghost predicate Valid()
    {
      8 <= BitSize <= 8 * Flags.Length && Flags.Length <= 255
    }

    ghost function Bits(): Flags
      requires Valid()
      reads Flags
    {
      BitsOf(Flags[..], BitSize)
    }

    ghost function View(): StateV
      requires Valid()
      reads this, Flags
    {
      StateV(ExecPath, SizeIdx, Bits(), Moves, input, lastMove)
    }

    /** At most 2032 client flags, so that the byte count fits its `uint8`. */
    constructor (bitSize: u32)
      requires bitSize <= 2032
      ensures Valid() && fresh(Flags) && BitSize == bitSize + 8
      ensures View() == StateV([], 0, seq(bitSize + 8, _ => false), 0, None, 0)
    {
      ExecPath, SizeIdx, Moves, input, lastMove := [], 0, 0, None, 0;
      BitSize := bitSize + 8;
      var byteSize := ToByteSize(bitSize + 8);
      Flags := new bv8[byteSize](_ => 0);
      new;
      assert forall i :: 0 <= i < BitSize ==> !BitAt(Flags[..], i);
      assert Bits() == seq(bitSize + 8, _ => false);
    }

    /** Sets one flag and reports whether it changed. An index out of range panics. */
    method SetFlag(bitIndex: u32) returns (changed: bool)
      requires Valid() && bitIndex < BitSize
      modifies Flags
      ensures changed == !old(Bits())[bitIndex]
      ensures View() == old(View()).(flags := old(Bits())[bitIndex := true])
    {
      hide TestBit, Mask;
      ghost var field := Flags[..];
      FieldUpdate(field, BitSize, bitIndex, true);
      var b := Flags[bitIndex / 8];
      if TestBit(b, bitIndex % 8) {
        assert BitsOf(field, BitSize)[bitIndex := true] == BitsOf(field, BitSize);
        return false;
      }
      Flags[bitIndex / 8] := b | Mask(bitIndex % 8);
      assert Flags[..] == WriteBit(field, bitIndex / 8, bitIndex % 8, true);
      return true;
    }

    method ResetFlag(bitIndex: u32) returns (changed: bool)
      requires Valid() && bitIndex < BitSize
      modifies Flags
      ensures changed == old(Bits())[bitIndex]
      ensures View() == old(View()).(flags := old(Bits())[bitIndex := false])
    {
      hide TestBit, Mask;
      ghost var field := Flags[..];
      FieldUpdate(field, BitSize, bitIndex, false);
      var b := Flags[bitIndex / 8];
      if !TestBit(b, bitIndex % 8) {
        assert BitsOf(field, BitSize)[bitIndex := false] == BitsOf(field, BitSize);
        return false;
      }
      Flags[bitIndex / 8] := b & !Mask(bitIndex % 8);
      assert Flags[..] == WriteBit(field, bitIndex / 8, bitIndex % 8, false);
      return true;
    }

    method GetFlag(bitIndex: u32) returns (r: bool)
      requires Valid() && bitIndex < BitSize
      ensures r == Bits()[bitIndex]
    {
      return TestBit(Flags[bitIndex / 8], bitIndex % 8);
    }

    method MatchFlag(sig: u32, matchSet: bool) returns (r: bool)
      requires Valid() && sig < BitSize
      ensures r == (Bits()[sig] == matchSet)
    {
      var f := GetFlag(sig);
      return matchSet == f;
    }

    /**
     True iff the field and the scanned bytes share a set bit below both sizes.
     */
    method GetIndex(flags: seq<bv8>) returns (r: bool)
      requires Valid()
      ensures r <==> exists i :: 0 <= i < BitSize && i < 8 * Scanned(|flags|) && Bits()[i] && BitAt(flags, i)
    {
      hide TestBit, Mask, Scanned, BitAt, Shared, Wrap8, BitsOf;
      ghost var field, scanned := Flags[..], Scanned(|flags|);
      LastScanned(|flags|);
      assert Bits() == BitsOf(field, BitSize);
      SharedMeans(field, flags, BitSize);
      if BitSize == 0 || |flags| == 0 {
        return false;
      }
      var byteIndex, localIndex := 0, 0;
      var l: int := Wrap8(|flags|);
      var globalIndex, i := 0, 0;
      while i < BitSize
        invariant 0 <= i <= BitSize && globalIndex == i
        invariant i == 8 * byteIndex + localIndex && 0 <= localIndex < 8
        invariant i <= 8 * scanned && (i < BitSize ==> byteIndex < scanned)
        invariant forall j :: 0 <= j < i ==> !Shared(field, flags, j)
      {
        ScannedBit(flags, field, i, byteIndex, localIndex);
        var testVal := flags[byteIndex] & Mask(localIndex);
        if testVal & Flags[byteIndex] > 0 {
          return true;
        }
        globalIndex := globalIndex + 1;
        if globalIndex % 8 == 0 {
          byteIndex := byteIndex + 1;
          localIndex := 0;
          if byteIndex > Wrap8(l - 1) {
            return false;
          }
        } else {
          localIndex := localIndex + 1;
        }
        i := i + 1;
      }
      return false;
    }

    /** The source's `Where`: the current node, empty before the first `Down`, and the page index. */
    method Location() returns (sym: Bytes, idx: u16)
      requires Valid()
      ensures sym == Where(View()) && idx == if ExecPath == [] then 0 else SizeIdx
    {
      if |ExecPath| == 0 {
        return [], 0;
      }
      return ExecPath[|ExecPath| - 1], SizeIdx;
    }

    method Next() returns (r: MoveResult)
      requires Valid()
      modifies this
      ensures r == if old(ExecPath) == [] then NoRoot else Moved(SNext(old(View())).idx)
      ensures View() == if old(ExecPath) == [] then old(View()) else SNext(old(View()))
    {
      if |ExecPath| == 0 {
        return NoRoot;
      }
      SizeIdx := Wrap16(SizeIdx + 1);
      Moves := Wrap32(Moves + 1);
      lastMove := 2;
      return Moved(SizeIdx);
    }

    method Same()
      requires Valid()
      modifies this
      ensures View() == old(View()).(moves := Wrap32(old(Moves) + 1))
    {
      Moves := Wrap32(Moves + 1);
    }

    method Previous() returns (r: MoveResult)
      requires Valid()
      modifies this
      ensures r == if old(ExecPath) == [] then NoRoot
                   else if old(SizeIdx) == 0 then AtFirstIndex
                   else Moved(old(SizeIdx) - 1)
      ensures View() == if r.Moved? then SPrevious(old(View())) else old(View())
    {
      if |ExecPath| == 0 {
        return NoRoot;
      }
      if SizeIdx == 0 {
        return AtFirstIndex;
      }
      SizeIdx := SizeIdx - 1;
      Moves := Wrap32(Moves + 1);
      lastMove := 4;
      return Moved(SizeIdx);
    }

    /** Availability of the next and of the previous page, in that order. */
    method Sides() returns (next: bool, previous: bool)
      ensures next == (ExecPath != []) && previous == (ExecPath != [] && SizeIdx > 0)
    {
      if |ExecPath| == 0 {
        return false, false;
      }
      next := true;
      if SizeIdx == 0 {
        return next, false;
      }
      return next, true;
    }

    /** Whether the top node is current; no answer before the first `Down`. */
    method Top() returns (r: Option<bool>)
      ensures r == if ExecPath == [] then None else Some(|ExecPath| == 1)
    {
      if |ExecPath| == 0 {
        return None;
      }
      return Some(|ExecPath| == 1);
    }

    method Down(sym: Bytes)
      requires Valid() && !DownPanics(View(), sym)
      modifies this
      ensures View() == SDown(old(View()), sym)
    {
      ExecPath := ExecPath + [sym];
      SizeIdx := 0;
      Moves := Wrap32(Moves + 1);
      lastMove := 0;
    }

    /** Leaves the current node; returns the node that is then current, empty when none is left. */
    method Up() returns (r: Option<Bytes>)
      requires Valid()
      modifies this
      ensures r == if old(ExecPath) == [] then None else Some(Where(View()))
      ensures View() == if old(ExecPath) == [] then old(View()) else SUp(old(View()))
    {
      var l := |ExecPath|;
      if l == 0 {
        return None;
      }
      ExecPath := ExecPath[..l - 1];
      var sym: Bytes := [];
      if |ExecPath| > 0 {
        sym := ExecPath[|ExecPath| - 1];
      }
      SizeIdx := 0;
      Moves := Wrap32(Moves + 1);
      lastMove := 1;
      return Some(sym);
    }

    method GetInput() returns (r: Option<Bytes>)
      ensures r == input
    {
      return input;
    }

    method SetInput(bytes: Bytes) returns (ok: bool)
      requires Valid()
      modifies this
      ensures ok == (|bytes| <= 255)
      ensures View() == if ok then old(View()).(input := Some(bytes)) else old(View())
    {
      if |bytes| > 255 {
        return false;
      }
      input := Some(bytes);
      return true;
    }

    /** Back to the top node; an error, and no change, when there is none. */
    method Restart() returns (ok: bool)
      requires Valid()
      modifies this, Flags
      ensures ok == (old(ExecPath) != [])
      ensures View() == if ok then SRestart(old(View())) else old(View())
    {
      if |ExecPath| == 0 {
        return false;
      }
      ghost var field := Flags[..];
      Flags[0] := 0;
      assert Flags[..] == field[0 := 0];
      assert Bits() == seq(8, _ => false) + BitsOf(field, BitSize)[8..];
      Moves := 0;
      SizeIdx := 0;
      input := Some([]);
      ExecPath := ExecPath[..1];
      lastMove := 0;
      return true;
    }
  }
}
