/** What the cache keeps over every sequence of calls. */
module CacheAccounting {
  import opened Common
  import opened Caching

  datatype CacheOp =
    | OpAdd(key: Bytes, value: Bytes, limit: u16)
    | OpUpdate(key: Bytes, value: Bytes)
    | OpPush
    | OpPop
    | OpReset
    | OpResetFull
    | OpLast

  ghost function Apply(c: CacheV, op: CacheOp): CacheV
    requires |c.frames| >= 1
  {
    match op
    case OpAdd(key, value, limit) => CAdd(c, key, value, limit)
    case OpUpdate(key, value) => CUpdate(c, key, value)
    case OpPush => CPush(c)
    case OpPop => CPop(c)
    case OpReset => CReset(c)
    case OpResetFull => CResetFull(c)
    case OpLast => c.(last := [])
  }

  /** No symbol is defined in two frames. */
  ghost predicate OneFrameEach(frames: seq<Frame>) {
    forall i, j :: 0 <= i < j < |frames| ==> frames[i].Keys !! frames[j].Keys
  }

  /** Every symbol has a reserved size, and its value passes the check against it, which compares modulo 2^16. */
  ghost predicate Reserved(c: CacheV) {
    forall i :: 0 <= i < |c.frames| ==> FrameReserved(c.frames[i], c.sizes)
  }

  ghost predicate FrameReserved(m: Frame, sizes: map<Bytes, u16>) {
    forall k :: k in m ==> k in sizes && !OverLimit(m[k], sizes[k])
  }

  /** The accounting invariant. The counter is a `uint32`, so it holds the total modulo 2^32. */
  ghost predicate Accounted(c: CacheV) {
    && |c.frames| >= 1
    && c.use == Wrap32(FramesTotal(c.frames))
    && OneFrameEach(c.frames)
    && Reserved(c)
  }

  lemma {:induction false} AddKeepsUse(c: CacheV, key: Bytes, value: Bytes, limit: u16)
    requires |c.frames| >= 1 && c.use == Wrap32(FramesTotal(c.frames)) && AddOutcome(c, key, value, limit) == Added
    ensures CAdd(c, key, value, limit).use == Wrap32(FramesTotal(CAdd(c, key, value, limit).frames))
  {
    hide Wrap32, OverLimit, Capacity, FrameTotal, FramesTotal;
    var top := |c.frames| - 1;
    FramesTotalPut(c.frames, top, c.frames[top][key := value]);
    FrameTotalPut(c.frames[top], key, value);
    WrapSum(FramesTotal(c.frames), |value|);
  }

  lemma {:induction false} AddKeepsReserved(c: CacheV, key: Bytes, value: Bytes, limit: u16)
    requires |c.frames| >= 1 && Reserved(c) && OneFrameEach(c.frames) && AddOutcome(c, key, value, limit) == Added
    ensures Reserved(CAdd(c, key, value, limit)) && OneFrameEach(CAdd(c, key, value, limit).frames)
  {
    hide Wrap32, OverLimit, Capacity;
    var c' := CAdd(c, key, value, limit);
    forall i | 0 <= i < |c'.frames|
      ensures FrameReserved(c'.frames[i], c'.sizes)
    {
      assert FrameReserved(c.frames[i], c.sizes);
    }
  }

  lemma {:induction false} AddKeepsAccount(c: CacheV, key: Bytes, value: Bytes, limit: u16)
    requires Accounted(c)
    ensures Accounted(CAdd(c, key, value, limit))
  {
    hide Wrap32, OverLimit, Capacity, FrameTotal, FramesTotal, OneFrameEach, Reserved;
    if AddOutcome(c, key, value, limit) == Added {
      AddKeepsUse(c, key, value, limit);
      AddKeepsReserved(c, key, value, limit);
    }
  }

  lemma {:induction false} UpdateKeepsUse(c: CacheV, key: Bytes, value: Bytes)
    requires c.use == Wrap32(FramesTotal(c.frames)) && Updates(c, key, value)
    ensures CUpdate(c, key, value).use == Wrap32(FramesTotal(CUpdate(c, key, value).frames))
  {
    hide Wrap32, OverLimit, Capacity, FrameTotal, FramesTotal, FrameOf;
    var f := FrameOf(c.frames, key);
    var old_, total := |c.frames[f][key]|, FramesTotal(c.frames);
    FramesTotalPut(c.frames, f, c.frames[f][key := value]);
    FrameTotalPut(c.frames[f], key, value);
    WrapSum(total, |value| - old_);
    assert c.use - old_ + |value| == c.use + (|value| - old_);
  }

  lemma {:induction false} PutKeepsDisjoint(frames: seq<Frame>, f: nat, key: Bytes, value: Bytes)
    requires OneFrameEach(frames) && f < |frames| && key in frames[f]
    ensures OneFrameEach(frames[f := frames[f][key := value]])
  {
    var frames' := frames[f := frames[f][key := value]];
    assert forall i :: 0 <= i < |frames| ==> frames'[i].Keys == frames[i].Keys;
  }

  lemma {:induction false} UpdateKeepsReserved(c: CacheV, key: Bytes, value: Bytes)
    requires Reserved(c) && Updates(c, key, value)
    ensures Reserved(CUpdate(c, key, value))
  {
    hide Wrap32, OverLimit, Capacity;
    var f, c' := FrameOf(c.frames, key), CUpdate(c, key, value);
    assert FrameReserved(c.frames[f], c.sizes);
    forall i | 0 <= i < |c'.frames|
      ensures FrameReserved(c'.frames[i], c'.sizes)
    {
      assert FrameReserved(c.frames[i], c.sizes);
    }
  }

  lemma {:induction false} UpdateKeepsAccount(c: CacheV, key: Bytes, value: Bytes)
    requires Accounted(c)
    ensures Accounted(CUpdate(c, key, value))
  {
    hide Wrap32, OverLimit, Capacity, FrameTotal, FramesTotal, OneFrameEach, Reserved;
    if Updates(c, key, value) {
      UpdateKeepsUse(c, key, value);
      PutKeepsDisjoint(c.frames, FrameOf(c.frames, key), key, value);
      UpdateKeepsReserved(c, key, value);
    }
  }

  lemma {:induction false} PopKeepsUse(c: CacheV)
    requires |c.frames| >= 1 && c.use == Wrap32(FramesTotal(c.frames))
    ensures CPop(c).use == Wrap32(FramesTotal(CPop(c).frames))
  {
    hide Wrap32;
    var top := |c.frames| - 1;
    assert c.frames == c.frames[..top] + [c.frames[top]];
    FramesTotalSnoc(c.frames[..top], c.frames[top]);
    WrapSum(FramesTotal(c.frames), FrameTotal(c.frames[top]));
    NoBytes();
    assert top == 0 ==> c.frames[..top] == [];
  }

  lemma NoBytes()
    ensures FramesTotal([]) == 0 && FramesTotal([map[]]) == 0
  {
    OneFrameTotal(map[]);
  }

  lemma {:induction false} PopKeepsReserved(c: CacheV)
    requires |c.frames| >= 1 && OneFrameEach(c.frames) && Reserved(c)
    ensures OneFrameEach(CPop(c).frames) && Reserved(CPop(c))
  {
    hide OverLimit, FramesTotal, FrameTotal, Wrap32;
    forall i | 0 <= i < |CPop(c).frames|
      ensures FrameReserved(CPop(c).frames[i], CPop(c).sizes)
    {
      assert FrameReserved(c.frames[i], c.sizes);
    }
  }

  lemma {:induction false} PopKeepsAccount(c: CacheV)
    requires Accounted(c)
    ensures Accounted(CPop(c))
  {
    hide OneFrameEach, Reserved, FramesTotal, Wrap32;
    PopKeepsUse(c);
    PopKeepsReserved(c);
  }

  lemma ResetKeepsAccount(c: CacheV)
    requires Accounted(c)
    ensures Accounted(CReset(c))
  {
    hide Wrap32;
    OneFrameTotal(c.frames[0]);
    assert c.frames[..1] == [c.frames[0]];
    assert FrameReserved(c.frames[0], c.sizes);
  }

  lemma StepKeepsAccount(c: CacheV, op: CacheOp)
    requires Accounted(c)
    ensures Accounted(Apply(c, op))
  {
    match op
    case OpAdd(key, value, limit) => AddKeepsAccount(c, key, value, limit);
    case OpUpdate(key, value) => UpdateKeepsAccount(c, key, value);
    case OpPush =>
      FramesTotalSnoc(c.frames, map[]);
      FrameTotalEmpty(map[]);
      var c' := CPush(c);
      forall i | 0 <= i < |c'.frames|
        ensures FrameReserved(c'.frames[i], c'.sizes)
      {
        assert i < |c.frames| ==> FrameReserved(c.frames[i], c.sizes);
      }
    case OpPop => PopKeepsAccount(c);
    case OpReset => ResetKeepsAccount(c);
    case OpResetFull =>
      OneFrameTotal(map[]);
      FrameTotalEmpty(map[]);
      WrapSmall(0);
    case OpLast =>
      assert forall i :: 0 <= i < |c.frames| ==> FrameReserved(c.frames[i], c.sizes);
  }

  ghost function ApplyAll(c: CacheV, ops: seq<CacheOp>): (r: CacheV)
    requires |c.frames| >= 1
    ensures |r.frames| >= 1 && r.cap == c.cap
    decreases |ops|
  {
    if ops == [] then c else ApplyAll(Apply(c, ops[0]), ops[1..])
  }

  /** The cache that NewCache followed by WithCacheSize returns. */
  ghost function NewCacheV(cap: u32): CacheV {
    CacheV(cap, 0, [map[]], map[], [])
  }

  /** Any sequence of calls on a new cache keeps the account. */
  lemma {:induction false} AccountedForever(c: CacheV, ops: seq<CacheOp>)
    requires Accounted(c)
    ensures Accounted(ApplyAll(c, ops))
    decreases |ops|
  {
    if ops != [] {
      StepKeepsAccount(c, ops[0]);
      AccountedForever(Apply(c, ops[0]), ops[1..]);
    }
  }

  lemma NewCacheAccounted(cap: u32)
    ensures Accounted(NewCacheV(cap)) && FramesTotal(NewCacheV(cap).frames) == 0
  {
    OneFrameTotal(map[]);
    FrameTotalEmpty(map[]);
    WrapSmall(0);
  }

  /** The counter is the true total, and within the capacity. */
  ghost predicate Exact(c: CacheV) {
    Accounted(c) && FramesTotal(c.frames) == c.use <= c.cap
  }

  predicate SmallValue(op: CacheOp) {
    (op.OpAdd? || op.OpUpdate?) ==> |op.value| < 0x1_0000
  }

  lemma {:induction false} FrameInTotal(frames: seq<Frame>, i: nat)
    requires i < |frames|
    ensures FrameTotal(frames[i]) <= FramesTotal(frames)
  {
    if i > 0 {
      FrameInTotal(frames[1..], i - 1);
    }
  }

  /** When the capacity check passes on exact numbers nothing wraps. */
  lemma CapacityExact(cap: u32, use: nat, value: Bytes)
    requires use <= cap <= 0xFFFF_0000 && 0 < cap && |value| < 0x1_0000
    requires value == [] || Capacity(cap, Wrap32(use), value) != 0
    ensures Wrap32(use) == use && Wrap32(use + |value|) == use + |value| <= cap
  {
  }

  lemma {:induction false} UpdateKeepsExact(c: CacheV, key: Bytes, value: Bytes)
    requires Exact(c) && 0 < c.cap <= 0xFFFF_0000 && |value| < 0x1_0000
    ensures Exact(CUpdate(c, key, value))
  {
    hide Wrap32, Capacity, OverLimit, FrameTotal, FramesTotal, OneFrameEach, Reserved;
    UpdateKeepsAccount(c, key, value);
    if Updates(c, key, value) {
      var f := FrameOf(c.frames, key);
      var old_ := |c.frames[f][key]|;
      FramesTotalPut(c.frames, f, c.frames[f][key := value]);
      FrameTotalPut(c.frames[f], key, value);
      FrameTotalRemove(c.frames[f], key);
      FrameInTotal(c.frames, f);
      CapacityExact(c.cap, c.use - old_, value);
      assert c.use - old_ + |value| == (c.use - old_) + |value|;
    }
  }

  lemma AddKeepsExact(c: CacheV, key: Bytes, value: Bytes, limit: u16)
    requires Exact(c) && 0 < c.cap <= 0xFFFF_0000 && |value| < 0x1_0000
    ensures Exact(CAdd(c, key, value, limit))
  {
    AddKeepsAccount(c, key, value, limit);
    if AddOutcome(c, key, value, limit) == Added {
      hide Wrap32, Capacity, OverLimit;
      var top := |c.frames| - 1;
      FramesTotalPut(c.frames, top, c.frames[top][key := value]);
      FrameTotalPut(c.frames[top], key, value);
      WrapSmall(c.use);
      CapacityExact(c.cap, c.use, value);
    }
  }

  lemma {:induction false} StepKeepsExact(c: CacheV, op: CacheOp)
    requires Exact(c) && 0 < c.cap <= 0xFFFF_0000 && SmallValue(op)
    ensures Exact(Apply(c, op))
  {
    hide AddOutcome, Updates, OverLimit, Capacity, OneFrameEach, Reserved, FrameReserved;
    StepKeepsAccount(c, op);
    match op
    case OpAdd(key, value, limit) => AddKeepsExact(c, key, value, limit);
    case OpUpdate(key, value) => UpdateKeepsExact(c, key, value);
    case OpPush =>
      FramesTotalSnoc(c.frames, map[]);
      FrameTotalEmpty(map[]);
    case OpPop =>
      var top := |c.frames| - 1;
      assert c.frames == c.frames[..top] + [c.frames[top]];
      FramesTotalSnoc(c.frames[..top], c.frames[top]);
      OneFrameTotal(map[]);
      FrameTotalEmpty(map[]);
    case OpReset =>
      FrameInTotal(c.frames, 0);
      OneFrameTotal(c.frames[0]);
      assert c.frames[..1] == [c.frames[0]];
    case OpResetFull => NewCacheAccounted(c.cap);
    case OpLast =>
  }

  lemma {:induction false} ExactForever(c: CacheV, ops: seq<CacheOp>)
    requires Exact(c) && 0 < c.cap <= 0xFFFF_0000
    requires forall op :: op in ops ==> SmallValue(op)
    ensures Exact(ApplyAll(c, ops))
    decreases |ops|
  {
    if ops != [] {
      StepKeepsExact(c, ops[0]);
      ExactForever(Apply(c, ops[0]), ops[1..]);
    }
  }

  // ----- reserved sizes as lengths -----

  /** Every value is at most as long as the size reserved for it; size 0 is no limit. */
  ghost predicate Bounded(c: CacheV) {
    forall i :: 0 <= i < |c.frames| ==> FrameBounded(c.frames[i], c.sizes)
  }

  ghost predicate FrameBounded(m: Frame, sizes: map<Bytes, u16>) {
    forall k :: k in m ==> k in sizes && (sizes[k] > 0 ==> |m[k]| <= sizes[k])
  }

  lemma SmallIsExact(value: Bytes, limit: u16)
    requires |value| < 0x1_0000
    ensures !OverLimit(value, limit) ==> limit == 0 || |value| <= limit
  {
  }

  lemma {:induction false} AddKeepsBound(c: CacheV, key: Bytes, value: Bytes, limit: u16)
    requires |c.frames| >= 1 && Bounded(c) && |value| < 0x1_0000
    ensures Bounded(CAdd(c, key, value, limit))
  {
    hide Wrap32, OverLimit, Capacity;
    if AddOutcome(c, key, value, limit) == Added {
      SmallIsExact(value, limit);
      var c' := CAdd(c, key, value, limit);
      forall i | 0 <= i < |c'.frames|
        ensures FrameBounded(c'.frames[i], c'.sizes)
      {
        assert FrameBounded(c.frames[i], c.sizes);
      }
    }
  }

  lemma {:induction false} UpdateKeepsBound(c: CacheV, key: Bytes, value: Bytes)
    requires Bounded(c) && |value| < 0x1_0000
    ensures Bounded(CUpdate(c, key, value))
  {
    hide Wrap32, OverLimit, Capacity;
    if Updates(c, key, value) {
      var f, c' := FrameOf(c.frames, key), CUpdate(c, key, value);
      assert FrameBounded(c.frames[f], c.sizes);
      SmallIsExact(value, c.sizes[key]);
      forall i | 0 <= i < |c'.frames|
        ensures FrameBounded(c'.frames[i], c'.sizes)
      {
        assert FrameBounded(c.frames[i], c.sizes);
      }
    }
  }

  lemma {:induction false} PopKeepsBound(c: CacheV)
    requires |c.frames| >= 1 && Bounded(c) && OneFrameEach(c.frames)
    ensures Bounded(CPop(c))
  {
    hide Wrap32, FrameTotal;
    var c' := CPop(c);
    if |c.frames| > 1 {
      forall i | 0 <= i < |c'.frames|
        ensures FrameBounded(c'.frames[i], c'.sizes)
      {
        assert FrameBounded(c.frames[i], c.sizes);
      }
    }
  }

  lemma {:induction false} StepKeepsBound(c: CacheV, op: CacheOp)
    requires Accounted(c) && Bounded(c) && SmallValue(op)
    ensures Bounded(Apply(c, op))
  {
    hide CAdd, CUpdate, Wrap32, FrameTotal, FramesTotal, FrameBounded;
    match op
    case OpAdd(key, value, limit) => AddKeepsBound(c, key, value, limit);
    case OpUpdate(key, value) => UpdateKeepsBound(c, key, value);
    case OpPush => EmptyIsBounded(c.sizes);
    case OpPop => PopKeepsBound(c);
    case OpReset =>
    case OpResetFull => EmptyIsBounded(map[]);
    case OpLast =>
  }

  lemma EmptyIsBounded(sizes: map<Bytes, u16>)
    ensures FrameBounded(map[], sizes)
  {
  }

  lemma {:induction false} BoundedForever(c: CacheV, ops: seq<CacheOp>)
    requires Accounted(c) && Bounded(c) && forall op :: op in ops ==> SmallValue(op)
    ensures Bounded(ApplyAll(c, ops))
    decreases |ops|
  {
    hide Bounded, FrameReserved, OneFrameEach, CAdd, CUpdate, FramesTotal, Wrap32;
    if ops != [] {
      StepKeepsAccount(c, ops[0]);
      StepKeepsBound(c, ops[0]);
      BoundedForever(Apply(c, ops[0]), ops[1..]);
    }
  }

  // ----- what is accepted -----

  /**
   Exactly when a new symbol is added. The reserved size is compared with the length modulo 2^16, and the
   capacity with the sum modulo 2^32.
   */
  lemma AddAcceptsIff(c: CacheV, key: Bytes, value: Bytes, limit: u16)
    requires |c.frames| >= 1
    ensures AddOutcome(c, key, value, limit) == Added <==>
      && (limit == 0 || |value| % 0x1_0000 <= limit)
      && (forall i :: 0 <= i < |c.frames| ==> key !in c.frames[i])
      && (value == [] || Accepts(c, c.use, value))
  {
    CapacityIff(c, c.use, value);
    hide Capacity;
  }

  /** A value goes into what is left: its length is not a multiple of 2^32, and the sum modulo 2^32 is within capacity. */
  predicate Accepts(c: CacheV, use: int, value: Bytes) {
    |value| % 0x1_0000_0000 != 0 && (c.cap == 0 || (use + |value|) % 0x1_0000_0000 <= c.cap)
  }

  lemma CapacityIff(c: CacheV, use: int, value: Bytes)
    ensures Capacity(c.cap, Wrap32(use), value) != 0 <==> Accepts(c, use, value)
    ensures 0 <= use < 0x1_0000_0000 ==> Wrap32(use) == use
    ensures 0 <= use && 0 < |value| && use + |value| < 0x1_0000_0000 ==>
      (Accepts(c, use, value) <==> c.cap == 0 || use + |value| <= c.cap)
  {
    hide Wrap32;
    var sum := use + |value|;
    WrapSum(use, |value|);
    WrapSum(Wrap32(use), |value|);
    WrapIs(sum);
    WrapIs(|value|);
    if 0 <= use < 0x1_0000_0000 {
      WrapSmall(use);
    }
  }

  lemma WrapIs(x: int)
    ensures Wrap32(x) == x % 0x1_0000_0000
    ensures 0 <= x < 0x1_0000_0000 ==> x % 0x1_0000_0000 == x
  {
  }

  /** Exactly when a value is replaced: the empty one never is. */
  lemma UpdateAcceptsIff(c: CacheV, key: Bytes, value: Bytes)
    ensures Updates(c, key, value) <==>
      && Has(c, key)
      && (key in c.sizes && c.sizes[key] > 0 ==> |value| % 0x1_0000 <= c.sizes[key])
      && Accepts(c, c.use - |c.frames[FrameOf(c.frames, key)][key]|, value)
  {
    if Has(c, key) {
      CapacityIff(c, c.use - |c.frames[FrameOf(c.frames, key)][key]|, value);
    }
    hide Capacity, Wrap32;
  }

  /** So a value of 64 KiB passes any limit: here the limit of one byte. */
  lemma LongValuePasses(key: Bytes, value: Bytes)
    requires |value| == 0x1_0000
    ensures var c := ApplyAll(NewCacheV(0), [OpAdd(key, value, 1)]);
      c.frames == [map[key := value]] && c.sizes == map[key := 1] && Accounted(c) && !Bounded(c)
  {
    var c0 := NewCacheV(0);
    var none: seq<CacheOp> := [];
    assert [OpAdd(key, value, 1)][1..] == none;
    AddAcceptsIff(c0, key, value, 1);
    var c := Apply(c0, OpAdd(key, value, 1));
    assert ApplyAll(c, none) == c;
    NewCacheAccounted(0);
    StepKeepsAccount(c0, OpAdd(key, value, 1));
    assert c.frames == [map[key := value]];
    assert !FrameBounded(c.frames[0], c.sizes);
  }

  /**
   The account of every reachable cache: whatever is called, the counter is the total length of all
   values modulo 2^32, no symbol lives in two frames, and every value passes the check against its reserved
   size. With values under 64 KiB no value is longer than its reserved size; and with a capacity set the
   counter is then the exact total and stays in capacity.
   */
  lemma EveryReachableCache(cap: u32, ops: seq<CacheOp>)
    ensures Accounted(ApplyAll(NewCacheV(cap), ops))
    ensures (forall op :: op in ops ==> SmallValue(op)) ==> Bounded(ApplyAll(NewCacheV(cap), ops))
    ensures 0 < cap <= 0xFFFF_0000 && (forall op :: op in ops ==> SmallValue(op)) ==>
              Exact(ApplyAll(NewCacheV(cap), ops))
  {
    NewCacheAccounted(cap);
    AccountedForever(NewCacheV(cap), ops);
    if forall op :: op in ops ==> SmallValue(op) {
      EmptyIsBounded(map[]);
      BoundedForever(NewCacheV(cap), ops);
      if 0 < cap <= 0xFFFF_0000 {
        ExactForever(NewCacheV(cap), ops);
      }
    }
  }
}
