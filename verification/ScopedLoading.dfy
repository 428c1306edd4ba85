/** What is loaded at a node is gone when the node is left: the cache as it was on entry comes back. */
module ScopedLoading {
  import opened Common
  import opened Codec
  import opened States
  import opened Caching
  import opened CacheAccounting
  import opened Resources
  import opened Rendering
  import opened Navigation
  import opened Running
  import opened StackSync

  // ----- on caches -----

  predicate InSome(frames: seq<Frame>, key: Bytes) {
    exists i :: 0 <= i < |frames| && key in frames[i]
  }

  /** Reserved sizes are those of `outer` and those of symbols in the frames above, and the two do not mix. */
  ghost predicate SizesAbove(outer: map<Bytes, u16>, inner: seq<Frame>, sizes: map<Bytes, u16>) {
    && (forall k :: k in outer ==> k in sizes && sizes[k] == outer[k] && !InSome(inner, k))
    && (forall k :: k in sizes && k !in outer ==> InSome(inner, k))
  }

  /** The cache `c` is the cache `c0` with further frames on top. */
  ghost predicate Above(c0: CacheV, c: CacheV) {
    && 1 <= |c0.frames| <= |c.frames|
    && c.frames[..|c0.frames|] == c0.frames
    && c.use == Wrap32(c0.use + FramesTotal(c.frames[|c0.frames|..]))
    && SizesAbove(c0.sizes, c.frames[|c0.frames|..], c.sizes)
  }

  /** A cache whose record of reserved sizes has lost some symbols. */
  function Without(c: CacheV, syms: set<Bytes>): CacheV {
    c.(sizes := c.sizes - syms)
  }

  lemma WithoutNone(c: CacheV)
    ensures Without(c, {}) == c
  {
  }

  lemma WithoutBoth(c: CacheV, a: set<Bytes>, b: set<Bytes>)
    ensures Without(Without(c, a), b) == Without(c, a + b)
  {
  }

  lemma AboveItself(c: CacheV)
    requires |c.frames| >= 1
    ensures Above(c, c)
  {
    assert c.frames[|c.frames|..] == [];
    WrapSmall(c.use);
  }

  /** Without further frames it is the same cache. */
  lemma NothingAbove(c0: CacheV, c: CacheV)
    requires Above(c0, c) && |c.frames| == |c0.frames|
    ensures c.frames == c0.frames && c.sizes == c0.sizes && c.use == c0.use
  {
    assert c.frames[|c0.frames|..] == [];
    assert c.frames[..|c0.frames|] == c.frames;
    WrapSmall(c0.use);
  }

  lemma {:induction false} PushAbove(c0: CacheV, c: CacheV)
    requires Above(c0, c)
    ensures Above(c0, CPush(c))
  {
    hide Wrap32, SizesAbove, FrameTotal, FramesTotal;
    var n, c' := |c0.frames|, CPush(c);
    var inner := c.frames[n..];
    assert c'.frames[n..] == inner + [map[]];
    FramesTotalSnoc(inner, map[]);
    FrameTotalEmpty(map[]);
    SizesPushed(c0.sizes, inner, c.sizes);
  }

  lemma SizesPushed(outer: map<Bytes, u16>, inner: seq<Frame>, sizes: map<Bytes, u16>)
    requires SizesAbove(outer, inner, sizes)
    ensures SizesAbove(outer, inner + [map[]], sizes)
  {
    forall k ensures InSome(inner + [map[]], k) <==> InSome(inner, k) {
      if InSome(inner, k) {
        var i :| 0 <= i < |inner| && k in inner[i];
        assert k in (inner + [map[]])[i];
      }
    }
  }

  lemma PopAbove(c0: CacheV, c: CacheV)
    requires Above(c0, c) && |c.frames| > |c0.frames|
    ensures Above(c0, CPop(c))
  {
    var n, c' := |c0.frames|, CPop(c);
    var inner, top := c.frames[n..], c.frames[|c.frames| - 1];
    var inner' := c'.frames[n..];
    assert inner == inner' + [top];
    FramesTotalSnoc(inner', top);
    WrapSum(c0.use + FramesTotal(inner), FrameTotal(top));
    SizesPopped(c0.sizes, inner', top, c.sizes);
    hide Wrap32, SizesAbove, FrameTotal;
    assert c0.use + FramesTotal(inner) - FrameTotal(top) == c0.use + FramesTotal(inner');
  }

  lemma SizesPopped(outer: map<Bytes, u16>, inner: seq<Frame>, top: Frame, sizes: map<Bytes, u16>)
    requires SizesAbove(outer, inner + [top], sizes)
    ensures SizesAbove(outer, inner, sizes - top.Keys)
  {
    var all := inner + [top];
    forall k ensures InSome(all, k) <==> InSome(inner, k) || k in top {
      if InSome(inner, k) {
        var i :| 0 <= i < |inner| && k in inner[i];
        assert k in all[i];
      }
      if k in top {
        assert k in all[|inner|];
      }
    }
  }

  lemma SizesAdded(
    outer: map<Bytes, u16>, inner: seq<Frame>, sizes: map<Bytes, u16>, key: Bytes, value: Bytes, limit: u16)
    requires SizesAbove(outer, inner, sizes) && inner != []
    ensures var top := |inner| - 1;
      SizesAbove(outer - {key}, inner[top := inner[top][key := value]], sizes[key := limit])
  {
    var top := |inner| - 1;
    var inner' := inner[top := inner[top][key := value]];
    forall k ensures InSome(inner', k) <==> InSome(inner, k) || k == key {
      if InSome(inner, k) {
        var i :| 0 <= i < |inner| && k in inner[i];
        assert k in inner'[i];
      }
      assert key in inner'[top];
    }
  }

  lemma PutInner(frames: seq<Frame>, n: nat, f: nat, m: Frame)
    requires n <= f < |frames|
    ensures frames[f := m][..n] == frames[..n] && frames[f := m][n..] == frames[n..][f - n := m]
  {
  }

  lemma UseMoved(use0: u32, use: u32, inner: seq<Frame>, f: nat, m: Frame, delta: int)
    requires f < |inner| && use == Wrap32(use0 + FramesTotal(inner)) && FrameTotal(m) == FrameTotal(inner[f]) + delta
    ensures Wrap32(use + delta) == Wrap32(use0 + FramesTotal(inner[f := m]))
  {
    hide Wrap32, FrameTotal, FramesTotal;
    FramesTotalPut(inner, f, m);
    WrapSum(use0 + FramesTotal(inner), delta);
  }

  /** The symbol an addition to the cache adds, if it is not refused. */
  function AddedBy(c: CacheV, key: Bytes, value: Bytes, limit: u16): set<Bytes>
    requires |c.frames| >= 1
  {
    if AddOutcome(c, key, value, limit) == Added then {key} else {}
  }

  lemma AddAbove(c0: CacheV, c: CacheV, key: Bytes, value: Bytes, limit: u16)
    requires Above(c0, c) && |c.frames| > |c0.frames|
    ensures Above(Without(c0, AddedBy(c, key, value, limit)), CAdd(c, key, value, limit))
  {
    hide Wrap32, SizesAbove, FrameTotal, FramesTotal, OverLimit, Capacity;
    if AddOutcome(c, key, value, limit) == Added {
      var n, top := |c0.frames|, |c.frames| - 1;
      var inner, f := c.frames[n..], c.frames[top][key := value];
      PutInner(c.frames, n, top, f);
      FrameTotalPut(c.frames[top], key, value);
      UseMoved(c0.use, c.use, inner, top - n, f, |value|);
      SizesAdded(c0.sizes, inner, c.sizes, key, value, limit);
    } else {
      WithoutNone(c0);
    }
  }

  /** A symbol that no frame below holds, but some frame does, is in a frame above. */
  lemma InnerSymbol(c0: CacheV, c: CacheV, key: Bytes)
    requires Above(c0, c) && !InSome(c0.frames, key) && Has(c, key)
    ensures var f := FrameOf(c.frames, key); |c0.frames| <= f && key in c.frames[f]
  {
    hide SizesAbove, FramesTotal, Wrap32;
    forall i | 0 <= i < |c0.frames| ensures key !in c.frames[i] {
      assert c0.frames[i] == c.frames[i];
    }
  }

  lemma UpdateAbove(c0: CacheV, c: CacheV, key: Bytes, value: Bytes)
    requires Above(c0, c) && !InSome(c0.frames, key)
    ensures Above(c0, CUpdate(c, key, value))
  {
    hide Wrap32, SizesAbove, FrameTotal, FramesTotal, OverLimit, Capacity, FrameOf, InSome;
    if Updates(c, key, value) {
      var n, f := |c0.frames|, FrameOf(c.frames, key);
      InnerSymbol(c0, c, key);
      var inner, old_, m := c.frames[n..], |c.frames[f][key]|, c.frames[f][key := value];
      PutInner(c.frames, n, f, m);
      FrameTotalPut(c.frames[f], key, value);
      UseMoved(c0.use, c.use, inner, f - n, m, |value| - old_);
      SizesUpdated(c0.sizes, inner, c.sizes, f - n, key, value);
      assert c.use - old_ + |value| == c.use + (|value| - old_);
    }
  }

  lemma SizesUpdated(outer: map<Bytes, u16>, inner: seq<Frame>, sizes: map<Bytes, u16>, f: nat, key: Bytes, value: Bytes)
    requires SizesAbove(outer, inner, sizes) && f < |inner| && key in inner[f]
    ensures SizesAbove(outer, inner[f := inner[f][key := value]], sizes)
  {
    var inner' := inner[f := inner[f][key := value]];
    forall k ensures InSome(inner', k) <==> InSome(inner, k) {
      if InSome(inner, k) {
        var i :| 0 <= i < |inner| && k in inner[i];
        assert k in inner'[i];
      }
    }
  }

  // ----- on machines -----

  lemma {:induction false} RewindAbove(c0: CacheV, p: Place)
    requires Above(c0, p.ca) && |p.ca.frames| == |p.st.path| + 1
    requires |c0.frames| <= |RewindPlace(p).st.path| + 1
    ensures Above(c0, RewindPlace(p).ca)
    decreases |p.st.path|
  {
    if |p.st.path| > 1 {
      assert |RewindPlace(p).st.path| <= 1;
      PopAbove(c0, p.ca);
      hide Above, CPop;
      RewindAbove(c0, Place(SUp(p.st), CPop(p.ca)));
    }
  }

  lemma TargetAbove(c0: CacheV, v: VmV, target: Bytes)
    requires Sound(v) && Level(v) && Above(c0, v.ca) && |v.ca.frames| > |c0.frames|
    requires |c0.frames| <= |Target(v, target).st.path| + 1
    ensures Above(c0, Target(v, target).ca)
  {
    PopAbove(c0, v.ca);
    PushAbove(c0, v.ca);
    var p := Place(v.st, v.ca);
    if target == TOP {
      assert TargetOut(v.st, TOP).To? ==> TargetPlace(p, target) == RewindPlace(p) by { hide RewindPlace; }
      hide RewindPlace, Above, CPop, CPush, ValidTarget;
      if TargetOut(v.st, TOP).To? {
        RewindAbove(c0, p);
      }
    } else {
      hide RewindPlace, Above, CPop, CPush, ValidTarget;
    }
  }

  /** The symbol a step reloads, if it is a RELOAD. */
  predicate Reloads(op: Opcode, b: Bytes, sym: Bytes) {
    op == RELOAD && ParseSym(b).Ok? && ParseSym(b).value == sym
  }

  /** The symbol an instruction adds to the cache, if it is a LOAD that does. */
  function OpAdds(rs: Resource, op: Opcode, v: VmV, b: Bytes): set<Bytes>
    requires Sound(v)
  {
    if op == LOAD && ParseSymLen(b).Ok? then
      var arg := ParseSymLen(b).value;
      var out := RefreshOut(rs, v, arg.0);
      if CGet(v.ca, arg.0).None? && out.Content? then AddedBy(v.ca, arg.0, out.content, Wrap16(arg.1)) else {}
    else {}
  }

  /**
   Deeper than the node whose cache is `c0`, every instruction leaves that cache alone, except that a
   size recorded under a name that no frame holds is lost when that name is loaded.
   */
  lemma OpAbove(rs: Resource, c0: CacheV, op: Opcode, v: VmV, b: Bytes)
    requires Sound(v) && Level(v) && Above(c0, v.ca) && |v.ca.frames| > |c0.frames|
    requires !CroakFires(op, v, b)
    requires forall sym :: Reloads(op, b, sym) ==> !InSome(c0.frames, sym)
    requires |c0.frames| <= |DoOp(rs, op, v, b).v.st.path| + 1
    ensures Above(Without(c0, OpAdds(rs, op, v, b)), DoOp(rs, op, v, b).v.ca)
  {
    WithoutNone(c0);
    if op == CATCH || op == MOVE {
      MoveAbove(rs, c0, op, v, b);
    } else if op == INCMP {
      InCmpAbove(rs, c0, v, b);
    } else if op == LOAD {
      LoadAbove(rs, c0, v, b);
    } else if op == RELOAD {
      ReloadAbove(rs, c0, v, b);
    } else {
      hide Above, ParseSym, ParseTwoSym, ParseSig, PReset, MapOut, MapState, Without;
    }
  }

  lemma LoadAbove(rs: Resource, c0: CacheV, v: VmV, b: Bytes)
    requires Sound(v) && Above(c0, v.ca) && |v.ca.frames| > |c0.frames|
    ensures Above(Without(c0, OpAdds(rs, LOAD, v, b)), DoLoad(rs, v, b).v.ca)
  {
    hide Above, CAdd, CGet, ParseSymLen, RefreshState, AddOutcome, RefreshOut, Wrap16, AddedBy, Without;
    WithoutNone(c0);
    if ParseSymLen(b).Ok? {
      var arg := ParseSymLen(b).value;
      var out := RefreshOut(rs, v, arg.0);
      if out.Content? {
        AddAbove(c0, v.ca, arg.0, out.content, Wrap16(arg.1));
      }
    }
  }

  lemma ReloadAbove(rs: Resource, c0: CacheV, v: VmV, b: Bytes)
    requires Sound(v) && Above(c0, v.ca)
    requires forall sym :: Reloads(RELOAD, b, sym) ==> !InSome(c0.frames, sym)
    ensures Above(c0, DoReload(rs, v, b).v.ca)
  {
    hide Above, InSome, CUpdate, ParseSym, RefreshState, MapOut, MapState;
    if ParseSym(b).Ok? {
      var sym := ParseSym(b).value;
      var out := RefreshOut(rs, v, sym);
      if out.Content? {
        assert Reloads(RELOAD, b, sym);
        UpdateAbove(c0, v.ca, sym, out.content);
      }
    }
    hide RefreshOut;
  }

  lemma MoveAbove(rs: Resource, c0: CacheV, op: Opcode, v: VmV, b: Bytes)
    requires Sound(v) && (op == CATCH || op == MOVE)
    requires Level(v) && Above(c0, v.ca) && |v.ca.frames| > |c0.frames|
    requires |c0.frames| <= |DoOp(rs, op, v, b).v.st.path| + 1
    ensures Above(c0, DoOp(rs, op, v, b).v.ca)
  {
    hide Target, TargetOut, ParseSym, ParseSymSig, PReset, Above;
    var target := if op == CATCH then (if ParseSymSig(b).Ok? then ParseSymSig(b).value.0 else [])
                  else if ParseSym(b).Ok? then ParseSym(b).value else [];
    if |c0.frames| <= |Target(v, target).st.path| + 1 {
      TargetAbove(c0, v, target);
    }
  }

  lemma InCmpAbove(rs: Resource, c0: CacheV, v: VmV, b: Bytes)
    requires Sound(v) && Level(v) && Above(c0, v.ca) && |v.ca.frames| > |c0.frames|
    requires |c0.frames| <= |DoInCmp(rs, v, b).v.st.path| + 1
    ensures Above(c0, DoInCmp(rs, v, b).v.ca)
  {
    hide Target, TargetOut, ParseTwoSym, PReset, Above;
    if ParseTwoSym(b).Ok? {
      var arg := ParseTwoSym(b).value;
      var v1 := if v.st.flags[FLAG_INMATCH] then v else WithFlag(v, FLAG_READIN, true);
      var v2 := WithFlag(WithFlag(v1, FLAG_INMATCH, true), FLAG_READIN, false);
      if |c0.frames| <= |Target(v2, arg.0).st.path| + 1 {
        TargetAbove(c0, v2, arg.0);
      }
    }
  }

  lemma TargetDeepens(v: VmV, target: Bytes)
    requires Sound(v) && |Target(v, target).st.path| > |v.st.path|
    ensures Target(v, target).ca == CPush(v.ca)
  {
    hide RewindPlace, CPop, CPush, ValidTarget;
  }

  /** The one way to get deeper pushes a cache level. */
  lemma {:induction false} OpDeepens(rs: Resource, op: Opcode, v: VmV, b: Bytes)
    requires Sound(v) && |DoOp(rs, op, v, b).v.st.path| > |v.st.path|
    ensures DoOp(rs, op, v, b).v.ca == CPush(v.ca)
  {
    hide Target, TargetOut, ParseSym, ParseSymSig, ParseTwoSym, ParseSig, ParseSymLen, PReset, CPush, RefreshState,
      RefreshOut,
      CAdd, CUpdate, CReset, CGet, AddOutcome, MapOut, MapState;
    if op == CATCH || op == MOVE {
      var target := if op == CATCH then (if ParseSymSig(b).Ok? then ParseSymSig(b).value.0 else [])
                    else if ParseSym(b).Ok? then ParseSym(b).value else [];
      if |Target(v, target).st.path| > |v.st.path| {
        TargetDeepens(v, target);
      }
    } else if op == INCMP && ParseTwoSym(b).Ok? {
      var v1 := if v.st.flags[FLAG_INMATCH] then v else WithFlag(v, FLAG_READIN, true);
      var v2 := WithFlag(WithFlag(v1, FLAG_INMATCH, true), FLAG_READIN, false);
      var target := ParseTwoSym(b).value.0;
      if |Target(v2, target).st.path| > |v.st.path| {
        TargetDeepens(v2, target);
      }
    }
  }

  // ----- steps -----

  /** Whether a step executes a RELOAD of `sym`. */
  predicate StepReloads(b: Bytes, sym: Bytes) {
    OpSplit(b).Ok? && Reloads(OpSplit(b).value, OpSplit(b).rest, sym)
  }

  /** A step moves and loads exactly as its instruction does. */
  lemma StepIsOp(rs: Resource, v: VmV, b: Bytes)
    requires Sound(v)
    ensures var s, p, split := StepOf(rs, v, b).v, Prelude(v), OpSplit(b);
      if !v.st.flags[FLAG_TERMINATE] && split.Ok? && split.value != HALT then
        s.st.path == DoOp(rs, split.value, p, split.rest).v.st.path && s.ca == DoOp(rs, split.value, p, split.rest).v.ca
      else s.st.path == v.st.path && s.ca == v.ca
    ensures Prelude(v).st.path == v.st.path && Prelude(v).ca == v.ca
  {
    var v1 := Prelude(v);
    assert v1.st.path == v.st.path && v1.ca == v.ca;
    hide DoOp, Prelude, OpSplit;
  }

  lemma {:induction false} StepDeepens(rs: Resource, v: VmV, b: Bytes)
    requires Sound(v) && |StepOf(rs, v, b).v.st.path| > |v.st.path|
    ensures StepOf(rs, v, b).v.ca == CPush(v.ca)
  {
    StepIsOp(rs, v, b);
    hide StepOf, DoOp, Prelude, OpSplit, CPush;
    if OpSplit(b).Ok? && !v.st.flags[FLAG_TERMINATE] && OpSplit(b).value != HALT {
      OpDeepens(rs, OpSplit(b).value, Prelude(v), OpSplit(b).rest);
    }
  }

  /** The symbol a step adds to the cache, if any. */
  function StepAdds(rs: Resource, v: VmV, b: Bytes): set<Bytes>
    requires Sound(v)
  {
    if !v.st.flags[FLAG_TERMINATE] && OpSplit(b).Ok? then OpAdds(rs, OpSplit(b).value, Prelude(v), OpSplit(b).rest) else {}
  }

  lemma {:induction false} StepAbove(rs: Resource, c0: CacheV, v: VmV, b: Bytes)
    requires Sound(v) && Level(v) && Above(c0, v.ca) && |v.ca.frames| > |c0.frames|
    requires !StepCroaks(v, b)
    requires forall sym :: StepReloads(b, sym) ==> !InSome(c0.frames, sym)
    requires |c0.frames| <= |StepOf(rs, v, b).v.st.path| + 1
    ensures Above(Without(c0, StepAdds(rs, v, b)), StepOf(rs, v, b).v.ca)
  {
    hide StepOf, DoOp, Prelude, OpSplit, Above, CroakFires, Reloads, InSome, Without, OpAdds;
    StepIsOp(rs, v, b);
    WithoutNone(c0);
    LoadStays(rs, HALT, Prelude(v), if OpSplit(b).Ok? then OpSplit(b).rest else []);
    var split := OpSplit(b);
    if split.Ok? && !v.st.flags[FLAG_TERMINATE] && split.value != HALT {
      assert forall sym :: Reloads(split.value, split.rest, sym) ==> StepReloads(b, sym);
      OpAbove(rs, c0, split.value, Prelude(v), split.rest);
    }
  }

  /** A step that goes deeper adds nothing. */
  lemma {:induction false} DeeperAddsNothing(rs: Resource, v: VmV, b: Bytes)
    requires Sound(v) && |StepOf(rs, v, b).v.st.path| > |v.st.path|
    ensures StepAdds(rs, v, b) == {}
  {
    hide StepOf, Prelude, OpSplit, OpAdds, DoOp;
    StepIsOp(rs, v, b);
    if OpSplit(b).Ok? {
      LoadStays(rs, OpSplit(b).value, Prelude(v), OpSplit(b).rest);
    }
  }

  lemma LoadStays(rs: Resource, op: Opcode, v: VmV, b: Bytes)
    requires Sound(v)
    ensures op != LOAD ==> OpAdds(rs, op, v, b) == {}
    ensures op == LOAD ==> DoOp(rs, op, v, b).v.st.path == v.st.path
  {
    hide ParseSymLen, RefreshState, RefreshOut, CGet, AddOutcome, CAdd;
  }

  // ----- segments -----

  /**
   A sequence of steps, of one run or of several. Between two steps the client may change the flags,
   the input and the page; the stack and the cache pass from each step to the next.
   */
  ghost predicate Trace(rs: Resource, vs: seq<VmV>, bs: seq<Bytes>) {
    && |vs| == |bs| + 1
    && (forall i :: 0 <= i < |vs| ==> Sound(vs[i]))
    && forall i :: 0 <= i < |bs| ==> Follows(rs, vs[i], bs[i], vs[i + 1])
  }

  ghost predicate Follows(rs: Resource, v: VmV, b: Bytes, v': VmV)
    requires Sound(v)
  {
    v'.st.path == StepOf(rs, v, b).v.st.path && v'.ca == StepOf(rs, v, b).v.ca
  }

  /** Free of CROAK, and of RELOADs of what the cache `c0` holds. */
  ghost predicate SparesOuter(c0: CacheV, v: VmV, b: Bytes)
    requires Sound(v)
  {
    !StepCroaks(v, b) && forall sym :: StepReloads(b, sym) ==> !InSome(c0.frames, sym)
  }

  lemma StepLevel(rs: Resource, v: VmV, b: Bytes, v': VmV)
    requires Sound(v) && Sound(v') && Level(v) && !StepCroaks(v, b) && Follows(rs, v, b, v')
    ensures Level(v')
  {
    StepSync(rs, v, b);
    hide StepOf, StepCroaks;
  }

  /** The symbols that the steps of a segment add to the cache. */
  ghost function AddedIn(rs: Resource, vs: seq<VmV>, bs: seq<Bytes>): set<Bytes>
    requires |vs| == |bs| + 1 && forall i :: 0 <= i < |vs| ==> Sound(vs[i])
    decreases |bs|
  {
    if bs == [] then {}
    else
      var n := |bs| - 1;
      AddedIn(rs, vs[..n + 1], bs[..n]) + StepAdds(rs, vs[n], bs[n])
  }

  lemma {:induction false} AddedInIs(rs: Resource, vs: seq<VmV>, bs: seq<Bytes>, sym: Bytes)
    requires |vs| == |bs| + 1 && forall i :: 0 <= i < |vs| ==> Sound(vs[i])
    ensures sym in AddedIn(rs, vs, bs) <==> exists i :: 0 <= i < |bs| && sym in StepAdds(rs, vs[i], bs[i])
    decreases |bs|
  {
    hide StepAdds;
    if bs != [] {
      var n := |bs| - 1;
      var before, done := vs[..n + 1], bs[..n];
      AddedInIs(rs, before, done, sym);
      if i :| 0 <= i < n && sym in StepAdds(rs, vs[i], bs[i]) {
        assert before[i] == vs[i] && done[i] == bs[i];
      }
      if i :| 0 <= i < n && sym in StepAdds(rs, before[i], done[i]) {
        assert before[i] == vs[i] && done[i] == bs[i];
      }
    }
  }

  lemma {:induction false} DeeperStaysAbove(rs: Resource, c0: CacheV, vs: seq<VmV>, bs: seq<Bytes>)
    requires Trace(rs, vs, bs) && Level(vs[0]) && Above(c0, vs[0].ca)
    requires forall i :: 0 <= i < |bs| ==> |vs[i].st.path| + 1 > |c0.frames| && SparesOuter(c0, vs[i], bs[i])
    requires |c0.frames| <= |vs[|bs|].st.path| + 1
    ensures Level(vs[|bs|]) && Above(Without(c0, AddedIn(rs, vs, bs)), vs[|bs|].ca)
    decreases |bs|
  {
    hide Above, StepOf, StepCroaks, StepReloads, InSome, StepAdds;
    if bs == [] {
      WithoutNone(c0);
    } else {
      var n := |bs| - 1;
      var before, done := vs[..n + 1], bs[..n];
      assert Trace(rs, before, done) by {
        assert forall i :: 0 <= i < n ==> Follows(rs, before[i], done[i], before[i + 1]);
      }
      assert Follows(rs, vs[n], bs[n], vs[n + 1]) && SparesOuter(c0, vs[n], bs[n]);
      assert forall i :: 0 <= i < n ==> SparesOuter(c0, before[i], done[i]);
      DeeperStaysAbove(rs, c0, before, done);
      var added := AddedIn(rs, before, done);
      assert before[n] == vs[n];
      StepLevel(rs, vs[n], bs[n], vs[n + 1]);
      StepAbove(rs, Without(c0, added), vs[n], bs[n]);
      WithoutBoth(c0, added, StepAdds(rs, vs[n], bs[n]));
    }
  }

  /**
   Scoped loading is bracketed. A segment that enters a node, stays below the node it came from, and
   returns to it, without a CROAK and without a RELOAD of an outer symbol, gives back the cache as it was: the
   same frames and the same use, and the same reserved sizes but for the names it loads. Those were in no
   frame when they were loaded, so a size is lost only if an earlier reset had left it behind; the sizes
   are the same exactly when no name that has one is loaded.
   */
  lemma ScopedLoadingIsBracketed(rs: Resource, vs: seq<VmV>, bs: seq<Bytes>)
    requires Trace(rs, vs, bs) && |bs| >= 2 && Level(vs[0])
    requires forall i :: 0 <= i < |bs| ==> SparesOuter(vs[0].ca, vs[i], bs[i])
    requires forall i :: 0 < i < |bs| ==> |vs[i].st.path| > |vs[0].st.path|
    requires |vs[|bs|].st.path| == |vs[0].st.path|
    ensures var c0, c := vs[0].ca, vs[|bs|].ca;
      && c.frames == c0.frames && c.use == c0.use && c.sizes == c0.sizes - AddedIn(rs, vs, bs)
      && (c.sizes == c0.sizes <==>
            forall i, sym :: 0 <= i < |bs| && sym in StepAdds(rs, vs[i], bs[i]) ==> sym !in c0.sizes)
  {
    hide *;
    TraceIs(rs, vs, bs);
    var c0 := vs[0].ca;
    TailTrace(rs, c0, vs, bs);
    KeepsIs(c0, vs[0], bs[0]);
    Levels(vs[0]);
    Entered(rs, vs[0], bs[0], vs[1]);
    DeeperStaysAbove(rs, c0, vs[1..], bs[1..]);
    Levels(vs[|bs|]);
    var added := AddedIn(rs, vs[1..], bs[1..]);
    WithoutIs(c0, added);
    NothingAbove(Without(c0, added), vs[|bs|].ca);
    SameAdded(rs, vs, bs);
    SizesSame(rs, c0.sizes, vs, bs);
  }

  lemma WithoutIs(c: CacheV, syms: set<Bytes>)
    ensures var w := Without(c, syms); w.frames == c.frames && w.use == c.use && w.sizes == c.sizes - syms
  {
  }

  /** The first step, which enters the node, adds nothing. */
  lemma {:induction false} SameAdded(rs: Resource, vs: seq<VmV>, bs: seq<Bytes>)
    requires |vs| == |bs| + 1 && bs != [] && forall i :: 0 <= i < |vs| ==> Sound(vs[i])
    requires Follows(rs, vs[0], bs[0], vs[1]) && |vs[1].st.path| > |vs[0].st.path|
    ensures AddedIn(rs, vs[1..], bs[1..]) == AddedIn(rs, vs, bs)
  {
    hide StepOf, StepAdds, AddedIn;
    DeeperAddsNothing(rs, vs[0], bs[0]);
    var later, rest := vs[1..], bs[1..];
    forall sym ensures sym in AddedIn(rs, later, rest) <==> sym in AddedIn(rs, vs, bs) {
      AddedInIs(rs, later, rest, sym);
      AddedInIs(rs, vs, bs, sym);
      if i :| 0 <= i < |bs| && sym in StepAdds(rs, vs[i], bs[i]) {
        assert later[i - 1] == vs[i] && rest[i - 1] == bs[i];
      }
      if i :| 0 <= i < |rest| && sym in StepAdds(rs, later[i], rest[i]) {
        assert later[i] == vs[i + 1] && rest[i] == bs[i + 1];
      }
    }
  }

  lemma {:induction false} SizesSame(rs: Resource, sizes: map<Bytes, u16>, vs: seq<VmV>, bs: seq<Bytes>)
    requires |vs| == |bs| + 1 && forall i :: 0 <= i < |vs| ==> Sound(vs[i])
    ensures sizes - AddedIn(rs, vs, bs) == sizes <==>
      forall i, sym :: 0 <= i < |bs| && sym in StepAdds(rs, vs[i], bs[i]) ==> sym !in sizes
  {
    hide StepAdds, AddedIn;
    var added := AddedIn(rs, vs, bs);
    forall sym ensures sym in added <==> exists i :: 0 <= i < |bs| && sym in StepAdds(rs, vs[i], bs[i]) {
      AddedInIs(rs, vs, bs, sym);
    }
    LostOne(sizes, added);
  }

  lemma LostOne(sizes: map<Bytes, u16>, added: set<Bytes>)
    ensures sizes - added == sizes <==> forall sym :: sym in added ==> sym !in sizes
  {
    if sizes - added == sizes {
      forall sym | sym in added ensures sym !in sizes {
        assert sym !in sizes - added;
      }
    }
  }

  /** Leaves a size behind: the symbol is loaded one level up, and the cache reset. */
  function LeavesSize(key: Bytes, limit: u16): seq<CacheOp> {
    [OpPush, OpAdd(key, [], limit), OpReset]
  }

  /** A scope that loads the same name. */
  function LoadsAgain(key: Bytes): seq<CacheOp> {
    [OpPush, OpAdd(key, [], 0), OpPop]
  }

  lemma {:induction false} ApplyThree(c: CacheV, a: CacheOp, b: CacheOp, d: CacheOp)
    requires |c.frames| >= 1
    ensures |Apply(c, a).frames| >= 1 && |Apply(Apply(c, a), b).frames| >= 1
    ensures ApplyAll(c, [a, b, d]) == Apply(Apply(Apply(c, a), b), d)
  {
    hide CAdd, CUpdate, CPop, CReset;
    var none: seq<CacheOp> := [];
    assert [a, b, d][1..] == [b, d] && [b, d][1..] == [d] && [d][1..] == none;
    assert ApplyAll(Apply(Apply(c, a), b), [d]) == ApplyAll(Apply(Apply(Apply(c, a), b), d), none);
  }

  /** Such a loss is reached: the calls of a CROAK leave a size behind, and the next scope that loads the name loses it. */
  lemma StaleSizeIsLost(cap: u32, key: Bytes, limit: u16)
    ensures var c := ApplyAll(NewCacheV(cap), LeavesSize(key, limit));
      var c' := ApplyAll(c, LoadsAgain(key));
      c'.frames == c.frames && key in c.sizes && key !in c'.sizes
  {
    var c0 := NewCacheV(cap);
    ApplyThree(c0, OpPush, OpAdd(key, [], limit), OpReset);
    var c := ApplyAll(c0, LeavesSize(key, limit));
    var one := Apply(Apply(c0, OpPush), OpAdd(key, [], limit));
    assert one.sizes == map[key := limit] && one.frames[0] == map[] && |one.frames| == 2;
    assert c.frames == [map[]] && c.sizes == map[key := limit];
    ApplyThree(c, OpPush, OpAdd(key, [], 0), OpPop);
    var two := Apply(Apply(c, OpPush), OpAdd(key, [], 0));
    assert two.frames == [map[], map[key := []]];
    assert c.frames == two.frames[..1];
  }

  lemma KeepsIs(c0: CacheV, v: VmV, b: Bytes)
    requires Sound(v)
    ensures SparesOuter(c0, v, b) ==> !StepCroaks(v, b)
  {
    hide StepCroaks, InSome, StepReloads;
  }

  lemma TraceIs(rs: Resource, vs: seq<VmV>, bs: seq<Bytes>)
    ensures Trace(rs, vs, bs) ==> |vs| == |bs| + 1 && forall i :: 0 <= i < |vs| ==> Sound(vs[i])
  {
    hide Follows, Sound;
  }

  lemma TailTrace(rs: Resource, c0: CacheV, vs: seq<VmV>, bs: seq<Bytes>)
    requires Trace(rs, vs, bs) && bs != []
    requires forall i :: 0 <= i < |bs| ==> SparesOuter(c0, vs[i], bs[i])
    ensures Trace(rs, vs[1..], bs[1..]) && Follows(rs, vs[0], bs[0], vs[1])
    ensures forall i :: 0 <= i < |bs| - 1 ==> SparesOuter(c0, vs[1..][i], bs[1..][i])
  {
    hide Follows, SparesOuter;
    assert forall i :: 0 <= i < |bs| - 1 ==> Follows(rs, vs[1..][i], bs[1..][i], vs[1..][i + 1]);
  }

  lemma Levels(v: VmV)
    ensures Level(v) ==> |v.ca.frames| == |v.st.path| + 1
  {
  }

  /** Entering a node puts an empty frame on the cache of the node before. */
  lemma {:induction false} Entered(rs: Resource, v: VmV, b: Bytes, v': VmV)
    requires Sound(v) && Sound(v') && Level(v) && Follows(rs, v, b, v') && !StepCroaks(v, b)
    requires |v'.st.path| > |v.st.path|
    ensures Level(v') && Above(v.ca, v'.ca)
  {
    hide StepOf, StepCroaks, Above, CPush;
    AboveItself(v.ca);
    PushAbove(v.ca, v.ca);
    StepDeepens(rs, v, b);
    StepLevel(rs, v, b, v');
  }
}
