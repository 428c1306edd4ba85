/** The scoped symbol cache (cache/cache.go): a stack of frames under one size budget. */
module Caching {
  import opened Common

  type Frame = map<Bytes, Bytes>

  /** The state of a cache as a value. `use` and `cap` are the source's `uint32` counters. */
  datatype CacheV = CacheV(cap: u32, use: u32, frames: seq<Frame>, sizes: map<Bytes, u16>, last: Bytes)

  datatype AddResult = Added | TooLong | Duplicate | OtherFrame(frame: nat) | Full

  // ----- what each operation does, on values -----

  /** The first frame holding `key`, or -1. */
  function FrameOf(frames: seq<Frame>, key: Bytes): (r: int)
    ensures -1 <= r < |frames|
    ensures r == -1 <==> forall i :: 0 <= i < |frames| ==> key !in frames[i]
    ensures r >= 0 ==> key in frames[r] && forall i :: 0 <= i < r ==> key !in frames[i]
  {
    if frames == [] then -1
    else if key in frames[0] then 0
    else
      var r := FrameOf(frames[1..], key);
      assert forall i :: 1 <= i < |frames| ==> frames[i] == frames[1..][i - 1];
      if r == -1 then -1 else r + 1
  }

  predicate Has(c: CacheV, key: Bytes) {
    FrameOf(c.frames, key) != -1
  }

  /** The size limit refuses a value when the value's length, as a `uint16`, exceeds it: 64 KiB pass any limit. */
  predicate OverLimit(value: Bytes, limit: u16) {
    limit > 0 && Wrap16(|value|) > limit
  }

  /** The size `checkCapacity` reports: 0 when the value does not fit. */
  function Capacity(cap: u32, use: u32, value: Bytes): u32 {
    var sz := Wrap32(|value|);
    if cap != 0 && Wrap32(use + sz) > cap then 0 else sz
  }

  function AddOutcome(c: CacheV, key: Bytes, value: Bytes, limit: u16): AddResult
    requires |c.frames| >= 1
  {
    var f := FrameOf(c.frames, key);
    if OverLimit(value, limit) then TooLong
    else if f == |c.frames| - 1 then Duplicate
    else if f != -1 then OtherFrame(f)
    else if value != [] && Capacity(c.cap, c.use, value) == 0 then Full
    else Added
  }

  function CAdd(c: CacheV, key: Bytes, value: Bytes, limit: u16): (r: CacheV)
    requires |c.frames| >= 1
    ensures |r.frames| == |c.frames|
  {
    if AddOutcome(c, key, value, limit) != Added then c
    else
      var top := |c.frames| - 1;
      c.(frames := c.frames[top := c.frames[top][key := value]],
         use := Wrap32(c.use + |value|),
         sizes := c.sizes[key := limit],
         last := value)
  }

  /** True when `Update` replaces the value: never for an empty one. */
  predicate Updates(c: CacheV, key: Bytes, value: Bytes) {
    && Has(c, key)
    && !(key in c.sizes && OverLimit(value, c.sizes[key]))
    && Capacity(c.cap, Wrap32(c.use - |c.frames[FrameOf(c.frames, key)][key]|), value) != 0
  }

  function CUpdate(c: CacheV, key: Bytes, value: Bytes): (r: CacheV)
    ensures |r.frames| == |c.frames|
  {
    if !Updates(c, key, value) then c
    else
      var f := FrameOf(c.frames, key);
      c.(frames := c.frames[f := c.frames[f][key := value]],
         use := Wrap32(c.use - |c.frames[f][key]| + |value|))
  }

  function CPush(c: CacheV): CacheV {
    c.(frames := c.frames + [map[]])
  }

  /** Popping the only frame leaves a fresh empty one in its place. */
  ghost function CPop(c: CacheV): (r: CacheV)
    requires |c.frames| >= 1
    ensures |r.frames| == if |c.frames| == 1 then 1 else |c.frames| - 1
  {
    var top := |c.frames| - 1;
    c.(frames := if top == 0 then [map[]] else c.frames[..top],
       use := Wrap32(c.use - FrameTotal(c.frames[top])),
       sizes := c.sizes - c.frames[top].Keys)
  }

  /** Drops every frame but the first. The entries of `sizes` stay behind. */
  ghost function CReset(c: CacheV): (r: CacheV)
    ensures |r.frames| == if |c.frames| == 0 then 0 else 1
  {
    if c.frames == [] then c
    else c.(frames := c.frames[..1], use := Wrap32(FrameTotal(c.frames[0])))
  }

  function CResetFull(c: CacheV): CacheV {
    c.(frames := [map[]], use := 0, sizes := map[])
  }

  function CGet(c: CacheV, key: Bytes): Option<Bytes> {
    var f := FrameOf(c.frames, key);
    if f == -1 then None else Some(c.frames[f][key])
  }

  // ----- what the operations mean for the values -----

  /** A value that is added is there, with its limit, and it is the last one loaded; nothing else has changed. */
  lemma AddedIsThere(c: CacheV, key: Bytes, value: Bytes, limit: u16)
    requires |c.frames| >= 1 && AddOutcome(c, key, value, limit) == Added
    ensures var r := CAdd(c, key, value, limit);
      && CGet(c, key) == None && CGet(r, key) == Some(value) && (forall k :: k != key ==> CGet(r, k) == CGet(c, k))
      && key in r.sizes && r.sizes[key] == limit && (forall k :: k != key ==> (k in r.sizes <==> k in c.sizes))
      && (forall k :: k != key && k in c.sizes ==> r.sizes[k] == c.sizes[k])
      && r.frames[..|c.frames| - 1] == c.frames[..|c.frames| - 1] && r.frames[|c.frames| - 1] == c.frames[|c.frames| - 1][key := value]
      && r.last == value && r.cap == c.cap
  {
    hide Wrap32, Capacity, OverLimit;
    var r := CAdd(c, key, value, limit);
    assert key in r.frames[|c.frames| - 1];
    assert FrameOf(r.frames, key) == |c.frames| - 1;
    forall k | k != key ensures CGet(r, k) == CGet(c, k) {
      SameFrame(c.frames, r.frames, k);
    }
  }

  /** Frames that agree on a symbol have it in the same place. */
  lemma SameFrame(frames: seq<Frame>, others: seq<Frame>, k: Bytes)
    requires |frames| == |others| && forall i :: 0 <= i < |frames| ==> (k in frames[i] <==> k in others[i])
    ensures FrameOf(frames, k) == FrameOf(others, k)
  {
  }

  /** A value that is replaced is the new one where the old one was; nothing else has changed, the last value loaded included. */
  lemma UpdatedIsThere(c: CacheV, key: Bytes, value: Bytes)
    requires Updates(c, key, value)
    ensures var r := CUpdate(c, key, value);
      && CGet(r, key) == Some(value) && (forall k :: k != key ==> CGet(r, k) == CGet(c, k))
      && r.sizes == c.sizes && r.last == c.last && r.cap == c.cap
      && (forall i :: 0 <= i < |c.frames| ==> r.frames[i].Keys == c.frames[i].Keys)
  {
    hide Wrap32, Capacity, OverLimit;
    var r := CUpdate(c, key, value);
    forall k ensures k != key ==> CGet(r, k) == CGet(c, k)
      ensures FrameOf(r.frames, k) == FrameOf(c.frames, k)
    {
      SameFrame(c.frames, r.frames, k);
    }
  }

  /** Leaving a scope takes its symbols and sizes away, and leaves those of the scopes around it. */
  lemma PoppedIsGone(c: CacheV)
    requires |c.frames| >= 1
    ensures var r, top := CPop(c), c.frames[|c.frames| - 1];
      && (|c.frames| > 1 ==> r.frames == c.frames[..|c.frames| - 1]) && (|c.frames| == 1 ==> r.frames == [map[]])
      && (forall k :: k in r.sizes <==> k in c.sizes && k !in top)
      && (forall k :: k in r.sizes ==> r.sizes[k] == c.sizes[k])
      && r.last == c.last && r.cap == c.cap
  {
    hide Wrap32, FrameTotal;
  }

  /** A new scope sees what is around it. */
  lemma PushedSeesAll(c: CacheV)
    ensures var r := CPush(c);
      && r.frames == c.frames + [map[]] && (forall k :: CGet(r, k) == CGet(c, k))
      && r.sizes == c.sizes && r.use == c.use && r.last == c.last && r.cap == c.cap
  {
    var r := CPush(c);
    forall k ensures CGet(r, k) == CGet(c, k) {
      if FrameOf(c.frames, k) != -1 {
        assert k in r.frames[FrameOf(c.frames, k)];
      }
    }
  }

  /** The first frame stays, and every size; the bytes are counted again. */
  lemma ResetKeepsFirst(c: CacheV)
    requires |c.frames| >= 1
    ensures var r := CReset(c);
      && r.frames == [c.frames[0]] && r.use as int == FrameTotal(c.frames[0]) % 0x1_0000_0000
      && r.sizes == c.sizes && r.last == c.last && r.cap == c.cap
      && (forall k :: CGet(r, k) == if k in c.frames[0] then Some(c.frames[0][k]) else None)
  {
    hide FrameTotal;
  }

  /** One frame goes for every node left; when they run out, an empty one is left. */
  function FramesLeft(frames: seq<Frame>, nodes: nat): seq<Frame> {
    if nodes < |frames| then frames[..|frames| - nodes] else [map[]]
  }

  lemma PopFrames(c: CacheV)
    requires |c.frames| >= 1
    ensures CPop(c).frames == if |c.frames| == 1 then [map[]] else c.frames[..|c.frames| - 1]
  {
  }

  // ----- byte counts -----

  /** The total length of the values in one frame. */
  ghost function FrameTotal(m: Frame): nat
    decreases |m|
  {
    if m == map[] then 0
    else
      var k :| k in m;
      |m[k]| + FrameTotal(m - {k})
  }

  ghost function FramesTotal(frames: seq<Frame>): nat {
    if frames == [] then 0 else FrameTotal(frames[0]) + FramesTotal(frames[1..])
  }

  lemma FrameTotalEmpty(m: Frame)
    requires m == map[]
    ensures FrameTotal(m) == 0
  {
  }

  /** The sum does not depend on the order in which the frame is traversed. */
  lemma {:induction false} FrameTotalRemove(m: Frame, k: Bytes)
    requires k in m
    ensures FrameTotal(m) == |m[k]| + FrameTotal(m - {k})
    decreases |m|
  {
    var k0 :| k0 in m && FrameTotal(m) == |m[k0]| + FrameTotal(m - {k0});
    if k0 != k {
      FrameTotalRemove(m - {k0}, k);
      FrameTotalRemove(m - {k}, k0);
      assert m - {k0} - {k} == m - {k} - {k0};
    }
  }

  lemma FrameTotalPut(m: Frame, k: Bytes, v: Bytes)
    ensures FrameTotal(m[k := v]) == FrameTotal(m) + |v| - if k in m then |m[k]| else 0
  {
    FrameTotalRemove(m[k := v], k);
    if k in m {
      FrameTotalRemove(m, k);
      assert m[k := v] - {k} == m - {k};
    } else {
      assert m[k := v] - {k} == m;
    }
  }

  lemma {:induction false} FramesTotalPut(frames: seq<Frame>, i: nat, m: Frame)
    requires i < |frames|
    ensures FramesTotal(frames[i := m]) == FramesTotal(frames) - FrameTotal(frames[i]) + FrameTotal(m)
  {
    if i > 0 {
      assert frames[i := m][1..] == frames[1..][i - 1 := m];
      FramesTotalPut(frames[1..], i - 1, m);
    } else {
      assert frames[0 := m][1..] == frames[1..];
    }
  }

  lemma {:induction false} FramesTotalSnoc(frames: seq<Frame>, m: Frame)
    ensures FramesTotal(frames + [m]) == FramesTotal(frames) + FrameTotal(m)
  {
    if frames == [] {
      assert frames + [m] == [m];
      assert [m][1..] == [];
    } else {
      assert (frames + [m])[1..] == frames[1..] + [m];
      FramesTotalSnoc(frames[1..], m);
    }
  }

  lemma OneFrameTotal(m: Frame)
    ensures FramesTotal([m]) == FrameTotal(m)
  {
    assert [m][1..] == [];
  }

  /** Overwriting an entry twice keeps only the second value. */
  lemma PutTwice(frames: seq<Frame>, f: nat, key: Bytes, v: Bytes, w: Bytes)
    requires f < |frames| && key in frames[f]
    ensures
      var blank := frames[f := frames[f][key := v]];
      blank[f := blank[f][key := w]] == frames[f := frames[f][key := w]]
    ensures frames[f := frames[f][key := frames[f][key]]] == frames
  {
    var blank := frames[f := frames[f][key := v]];
    assert blank[f][key := w] == frames[f][key := w];
    assert frames[f][key := frames[f][key]] == frames[f];
  }

  /** What is left of `before` when all of `keys` but `todo` has been freed. */
  ghost predicate FreedTo(before: map<Bytes, u16>, keys: set<Bytes>, todo: set<Bytes>, after: map<Bytes, u16>) {
    todo <= keys && after == before - (keys - todo)
  }

  lemma FreeOne(before: map<Bytes, u16>, keys: set<Bytes>, todo: set<Bytes>, after: map<Bytes, u16>, k: Bytes)
    requires FreedTo(before, keys, todo, after) && k in todo
    ensures FreedTo(before, keys, todo - {k}, after - {k})
  {
    assert keys - (todo - {k}) == (keys - todo) + {k};
  }

  lemma FreedNone(sizes: map<Bytes, u16>, keys: set<Bytes>)
    ensures FreedTo(sizes, keys, keys, sizes)
  {
  }

  lemma FreedAll(before: map<Bytes, u16>, keys: set<Bytes>, after: map<Bytes, u16>)
    requires FreedTo(before, keys, {}, after)
    ensures after == before - keys
  {
    assert keys - {} == keys;
  }

  // ----- the object -----

  class Cache {
    var CacheSize: u32
    var CacheUseSize: u32
    var Cache: seq<Frame>
    var Sizes: map<Bytes, u16>
    var LastValue: Bytes

    ghost predicate Valid()
      reads this
    {
      |Cache| >= 1
    }

    ghost function View(): CacheV
      reads this
    {
      CacheV(CacheSize, CacheUseSize, Cache, Sizes, LastValue)
    }

    constructor ()
      ensures Valid() && View() == CacheV(0, 0, [map[]], map[], [])
    {
      CacheSize, CacheUseSize, Cache, Sizes, LastValue := 0, 0, [map[]], map[], [];
    }

    method WithCacheSize(cacheSize: u32)
      requires Valid()
      modifies this
      ensures Valid() && View() == old(View()).(cap := cacheSize)
    {
      CacheSize := cacheSize;
    }

    method FindFrame(key: Bytes) returns (r: int)
      ensures r == FrameOf(Cache, key)
    {
      var i := 0;
      while i < |Cache|
        invariant 0 <= i <= |Cache|
        invariant forall j :: 0 <= j < i ==> key !in Cache[j]
      {
        if key in Cache[i] {
          return i;
        }
        i := i + 1;
      }
      return -1;
    }

    method CheckCapacity(v: Bytes) returns (r: u32)
      ensures r == Capacity(CacheSize, CacheUseSize, v)
      ensures CacheUseSize + |v| < 0x1_0000_0000 ==>
        r == if CacheSize == 0 || CacheUseSize + |v| <= CacheSize then |v| else 0
    {
      var sz := Wrap32(|v|);
      if CacheSize == 0 {
        return sz;
      }
      if Wrap32(CacheUseSize + sz) > CacheSize {
        return 0;
      }
      return sz;
    }

    method Add(key: Bytes, value: Bytes, sizeLimit: u16) returns (r: AddResult)
      requires Valid()
      modifies this
      ensures Valid()
      ensures r == AddOutcome(old(View()), key, value, sizeLimit)
      ensures View() == CAdd(old(View()), key, value, sizeLimit)
    {
      hide Wrap32, FrameOf;
      if sizeLimit > 0 {
        var l := Wrap16(|value|);
        if l > sizeLimit {
          return TooLong;
        }
      }
      var checkFrame := FindFrame(key);
      if checkFrame > -1 {
        var thisFrame := |Cache| - 1;
        if checkFrame == thisFrame {
          return Duplicate;
        }
        return OtherFrame(checkFrame);
      }
      var sz: u32 := 0;
      if |value| > 0 {
        sz := CheckCapacity(value);
        if sz == 0 {
          return Full;
        }
      }
      WrapSum(CacheUseSize, |value|);
      WrapSmall(CacheUseSize);
      Cache := Cache[|Cache| - 1 := Cache[|Cache| - 1][key := value]];
      CacheUseSize := Wrap32(CacheUseSize + sz);
      Sizes := Sizes[key := sizeLimit];
      LastValue := value;
      return Added;
    }

    method Update(key: Bytes, value: Bytes) returns (ok: bool)
      requires Valid()
      modifies this
      ensures Valid()
      ensures ok == Updates(old(View()), key, value)
      ensures View() == CUpdate(old(View()), key, value)
    {
      hide Wrap32, FrameOf;
      if key in Sizes && Sizes[key] > 0 {
        var l := Wrap16(|value|);
        if l > Sizes[key] {
          return false;
        }
      }
      var checkFrame := FindFrame(key);
      if checkFrame == -1 {
        return false;
      }
      var r := Cache[checkFrame][key];
      var l := Wrap32(|r|);
      PutTwice(Cache, checkFrame, key, [], r);
      PutTwice(Cache, checkFrame, key, [], value);
      ghost var use0 := CacheUseSize;
      WrapSum(use0, |r|);
      WrapSum(use0 - |r|, |r|);
      WrapSum(Wrap32(use0 - |r|), |r|);
      WrapSum(use0 - |r|, |value|);
      WrapSum(Wrap32(use0 - |r|), |value|);
      WrapSmall(use0);
      Cache := Cache[checkFrame := Cache[checkFrame][key := []]];
      CacheUseSize := Wrap32(CacheUseSize - l);
      var sz := CheckCapacity(value);
      if sz == 0 {
        Cache := Cache[checkFrame := Cache[checkFrame][key := r]];
        CacheUseSize := Wrap32(CacheUseSize + l);
        return false;
      }
      Cache := Cache[checkFrame := Cache[checkFrame][key := value]];
      CacheUseSize := Wrap32(CacheUseSize + Wrap32(|value|));
      return true;
    }

    method ResetFull()
      modifies this
      ensures Valid() && View() == CResetFull(old(View()))
    {
      Cache := [map[]];
      Sizes := map[];
      CacheUseSize := 0;
    }

    method Get(key: Bytes) returns (r: Option<Bytes>)
      ensures r == CGet(View(), key)
    {
      var i := FindFrame(key);
      if i == -1 {
        return None;
      }
      return Some(Cache[i][key]);
    }

    method ReservedSize(key: Bytes) returns (r: Option<u16>)
      ensures r == if key in Sizes then Some(Sizes[key]) else None
    {
      if key !in Sizes {
        return None;
      }
      return Some(Sizes[key]);
    }

    method Reset()
      modifies this
      ensures View() == CReset(old(View()))
      ensures old(Valid()) ==> Valid()
    {
      hide Wrap32, FrameTotal;
      if |Cache| == 0 {
        return;
      }
      Cache := Cache[..1];
      ghost var bottom := Cache;
      CacheUseSize := 0;
      var todo := Cache[0];
      ghost var sum := 0;
      WrapSmall(0);
      while todo != map[]
        invariant CacheSize == old(CacheSize) && Sizes == old(Sizes) && LastValue == old(LastValue)
        invariant Cache == bottom
        invariant CacheUseSize == Wrap32(sum) && sum + FrameTotal(todo) == FrameTotal(bottom[0])
        decreases |todo|
      {
        var k :| k in todo;
        FrameTotalRemove(todo, k);
        WrapSum(sum, |todo[k]|);
        WrapSum(Wrap32(sum), |todo[k]|);
        CacheUseSize := Wrap32(CacheUseSize + Wrap32(|todo[k]|));
        sum := sum + |todo[k]|;
        todo := todo - {k};
      }
      FrameTotalEmpty(todo);
    }

    method Push()
      modifies this
      ensures Valid() && View() == CPush(old(View()))
    {
      Cache := Cache + [map[]];
    }

    /** Gives back the bytes and the reserved sizes of every symbol in a frame. */
    method Free(m: Frame)
      modifies this
      ensures CacheSize == old(CacheSize) && Cache == old(Cache) && LastValue == old(LastValue)
      ensures CacheUseSize == Wrap32(old(CacheUseSize) - FrameTotal(m))
      ensures Sizes == old(Sizes) - m.Keys
    {
      hide Wrap32, FrameTotal, FreedTo;
      FreedNone(Sizes, m.Keys);
      var todo := m.Keys;
      ghost var rest, left := m, CacheUseSize as int;
      WrapSmall(left);
      while todo != {}
        invariant CacheSize == old(CacheSize) && Cache == old(Cache) && LastValue == old(LastValue)
        invariant todo == rest.Keys && forall k :: k in todo ==> k in m && m[k] == rest[k]
        invariant CacheUseSize == Wrap32(left) && left - FrameTotal(rest) == old(CacheUseSize) - FrameTotal(m)
        invariant FreedTo(old(Sizes), m.Keys, todo, Sizes)
        decreases todo
      {
        var k :| k in todo;
        FrameTotalRemove(rest, k);
        WrapSum(left, |m[k]|);
        WrapSum(Wrap32(left), |m[k]|);
        FreeOne(old(Sizes), m.Keys, todo, Sizes, k);
        CacheUseSize := Wrap32(CacheUseSize - Wrap32(|m[k]|));
        left := left - |m[k]|;
        Sizes := Sizes - {k};
        todo := todo - {k};
        rest := rest - {k};
      }
      FrameTotalEmpty(rest);
      FreedAll(old(Sizes), m.Keys, Sizes);
    }

    method Pop()
      requires Valid()
      modifies this
      ensures Valid() && View() == CPop(old(View()))
    {
      var l := |Cache| - 1;
      Free(Cache[l]);
      Cache := Cache[..l];
      if l == 0 {
        Cache := Cache + [map[]];
      }
    }

    method Last() returns (s: Bytes)
      modifies this
      ensures s == old(LastValue) && View() == old(View()).(last := [])
      ensures old(Valid()) ==> Valid()
    {
      s := LastValue;
      LastValue := [];
    }
  }
}
