/** Byte strings, fixed-width arithmetic and the string helpers shared by every part of the model. */
module Common {

  /** A Go `byte`, as a number. Go strings and byte slices are sequences of these. */
  type byte = x: int | 0 <= x < 256
  type Bytes = seq<byte>

  type u16 = x: int | 0 <= x < 0x1_0000
  type u32 = x: int | 0 <= x < 0x1_0000_0000

  const NUL: byte := 0
  const LF: byte := 10

  datatype Option<+T> = None | Some(value: T)

  /** Conversion to `uint16`: Go keeps the low 16 bits. */
  function Wrap16(x: int): u16 {
    x % 0x1_0000
  }

  /** Conversion to `uint32`, and the result of `uint32` addition and subtraction. */
  function Wrap32(x: int): u32 {
    x % 0x1_0000_0000
  }

  lemma WrapShift(x: int, k: int)
    ensures Wrap32(x + k * 0x1_0000_0000) == Wrap32(x)
  {
  }

  /** Reductions may be delayed to the end of a sum. */
  lemma WrapSum(x: int, y: int)
    ensures Wrap32(Wrap32(x) + y) == Wrap32(x + y)
    ensures Wrap32(x + Wrap32(y)) == Wrap32(x + y)
    ensures Wrap32(Wrap32(x) - y) == Wrap32(x - y)
    ensures Wrap32(x - Wrap32(y)) == Wrap32(x - y)
  {
    WrapShift(Wrap32(x) + y, x / 0x1_0000_0000);
    WrapShift(Wrap32(x) - y, x / 0x1_0000_0000);
    WrapShift(x + Wrap32(y), y / 0x1_0000_0000);
    WrapShift(x - y, y / 0x1_0000_0000);
  }

  lemma WrapSmall(x: int)
    requires 0 <= x < 0x1_0000_0000
    ensures Wrap32(x) == x
  {
  }

  lemma Wrap16Sum(x: int, y: int)
    ensures Wrap16(Wrap16(x) + y) == Wrap16(x + y)
  {
    Wrap16Shift(Wrap16(x) + y, x / 0x1_0000);
  }

  lemma Wrap16Shift(x: int, k: int)
    ensures Wrap16(x + k * 0x1_0000) == Wrap16(x)
  {
  }

  /** `strings.Join` with a one-byte separator. */
  function Join(xs: seq<Bytes>, sep: byte): Bytes {
    if |xs| == 0 then []
    else if |xs| == 1 then xs[0]
    else xs[0] + [sep] + Join(xs[1..], sep)
  }

  /** `strings.Split(s, "\n")`: always at least one element. */
  function SplitLines(s: Bytes): (r: seq<Bytes>)
    ensures |r| >= 1
    ensures forall i :: 0 <= i < |r| ==> LF !in r[i]
  {
    if s == [] then [[]]
    else
      var rest := SplitLines(s[1..]);
      if s[0] == LF then [[]] + rest
      else [[s[0]] + rest[0]] + rest[1..]
  }

  /** Split and Join are inverse on every string. */
  lemma {:induction false} JoinSplit(s: Bytes)
    ensures Join(SplitLines(s), LF) == s
  {
    if s != [] {
      var rest := SplitLines(s[1..]);
      JoinSplit(s[1..]);
      if s[0] == LF {
        assert ([[]] + rest)[1..] == rest;
      } else {
        var r := [[s[0]] + rest[0]] + rest[1..];
        if |rest| > 1 {
          assert r[1..] == rest[1..];
        }
      }
    }
  }

  /** Appending one element on the right, the way the source grows a joined string. */
  lemma {:induction false} JoinSnoc(xs: seq<Bytes>, y: Bytes, sep: byte)
    ensures Join(xs + [y], sep) == if xs == [] then y else Join(xs, sep) + [sep] + y
  {
    if |xs| == 0 {
      assert xs + [y] == [y];
    } else if |xs| == 1 {
      assert (xs + [y])[1..] == [y];
    } else {
      assert (xs + [y])[1..] == xs[1..] + [y];
      JoinSnoc(xs[1..], y, sep);
    }
  }

  lemma {:induction false} JoinAppend(xs: seq<Bytes>, ys: seq<Bytes>, sep: byte)
    requires xs != [] && ys != []
    ensures Join(xs + ys, sep) == Join(xs, sep) + [sep] + Join(ys, sep)
  {
    if |xs| == 1 {
      assert (xs + ys)[1..] == ys;
    } else {
      assert (xs + ys)[1..] == xs[1..] + ys;
      JoinAppend(xs[1..], ys, sep);
    }
  }

  /** The number of bytes in a list of strings, separators not counted. */
  function Total(xs: seq<Bytes>): nat {
    if xs == [] then 0 else |xs[0]| + Total(xs[1..])
  }

  lemma {:induction false} TotalAppend(xs: seq<Bytes>, ys: seq<Bytes>)
    ensures Total(xs + ys) == Total(xs) + Total(ys)
  {
    if xs == [] {
      assert xs + ys == ys;
    } else {
      assert (xs + ys)[1..] == xs[1..] + ys;
      TotalAppend(xs[1..], ys);
    }
  }

  lemma {:induction false} JoinLength(xs: seq<Bytes>, sep: byte)
    ensures |Join(xs, sep)| == if xs == [] then 0 else Total(xs) + |xs| - 1
  {
    if |xs| == 1 {
      assert xs[1..] == [];
    } else if |xs| > 1 {
      JoinLength(xs[1..], sep);
    }
  }

  /** A byte that is neither the separator nor inside any element is not in the joined string. */
  lemma {:induction false} JoinAvoids(xs: seq<Bytes>, sep: byte, c: byte)
    requires c != sep
    requires forall i :: 0 <= i < |xs| ==> c !in xs[i]
    ensures c !in Join(xs, sep)
  {
    if |xs| > 1 {
      JoinAvoids(xs[1..], sep, c);
    }
  }

  /** `bytes.ReplaceAll` of one byte by another. */
  function Replace(s: Bytes, a: byte, b: byte): (r: Bytes)
    ensures |r| == |s|
    ensures forall i :: 0 <= i < |s| ==> r[i] == if s[i] == a then b else s[i]
  {
    if s == [] then [] else [if s[0] == a then b else s[0]] + Replace(s[1..], a, b)
  }

  lemma ReplaceAppend(s: Bytes, t: Bytes, a: byte, b: byte)
    ensures Replace(s + t, a, b) == Replace(s, a, b) + Replace(t, a, b)
  {
  }

  /**
   Replacing the separator re-joins the same elements with the other separator, but for the separators inside
   elements, which are replaced as well.
   */
  lemma {:induction false} ReplaceJoin(xs: seq<Bytes>, a: byte, b: byte)
    requires a != b
    ensures Replace(Join(xs, a), a, b) == Replace(Join(xs, b), a, b)
    ensures (forall i :: 0 <= i < |xs| ==> a !in xs[i]) ==> Replace(Join(xs, b), a, b) == Join(xs, b)
  {
    if |xs| > 1 {
      ReplaceJoin(xs[1..], a, b);
      ReplaceAppend(xs[0] + [a], Join(xs[1..], a), a, b);
      ReplaceAppend(xs[0] + [b], Join(xs[1..], b), a, b);
      assert Replace(xs[0] + [a], a, b) == Replace(xs[0] + [b], a, b);
    }
    if forall i :: 0 <= i < |xs| ==> a !in xs[i] {
      JoinAvoids(xs, b, a);
      ReplaceNothing(Join(xs, b), a, b);
    }
  }

  /** A string stays the same exactly when the byte to be replaced is not in it. */
  lemma ReplaceNothing(s: Bytes, a: byte, b: byte)
    requires a != b
    ensures Replace(s, a, b) == s <==> a !in s
  {
    if a in s {
      var i :| 0 <= i < |s| && s[i] == a;
      assert Replace(s, a, b)[i] == b;
    }
  }
}
