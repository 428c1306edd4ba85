/** A run that ends on a page whose sink the sizer does not know, so that a page past its end is a browse error. */
module BrowseRuns {
  import opened Common
  import opened Codec
  import opened CodecProofs
  import opened States
  import opened Caching
  import opened Menus
  import opened Sizing
  import opened Paging
  import opened Resources
  import opened Templates
  import opened Rendering
  import opened Navigation
  import opened Running
  import opened Dispatch
  import opened Instructions
  import opened PageProofs
  import opened BrowseErrors
  import opened PageExamples
  import opened MenuCompiler
  import opened MenuRuns

  // ----- single instructions -----

  /** What the run below needs to know of a machine. `on` is its first client flag. */
  datatype Sketch = Sketch(path: seq<Bytes>, idx: u16, on: bool, calls: nat, ca: CacheV, pg: PageV)

  predicate Looks(v: VmV, s: Sketch) {
    && Idle(v) && |v.st.flags| > FLAG_USERSTART && v.st.flags[FLAG_USERSTART] == s.on
    && v.st.path == s.path && v.st.idx == s.idx && v.calls == s.calls && v.ca == s.ca && v.pg == s.pg
  }

  function LoadLine(sym: Bytes, limit: byte): Line {
    Line(LOAD, [sym], Some([limit]), [])
  }

  function MapLine(sym: Bytes): Line {
    Line(MAP, [sym], None, [])
  }

  function ReloadLine(sym: Bytes): Line {
    Line(RELOAD, [sym], None, [])
  }

  /** A move when the first client flag is set. */
  function CatchLine(target: Bytes): Line {
    Line(CATCH, [target], Some([FLAG_USERSTART]), [1])
  }

  lemma OneByte(n: byte)
    ensures FromBytes([n]) == n
  {
    assert [n][..0] == [];
    assert [n][1..] == [];
  }

  /** LOAD of a symbol that is not there yet. */
  lemma {:induction false} LoadsNew(rs: Resource, v: VmV, s: Sketch, sym: Bytes, limit: byte, content: Bytes, rest: Bytes)
    requires Looks(v, s) && GoodSym(sym) && rest != [] && |s.ca.frames| >= 1
    requires CGet(s.ca, sym).None? && AddOutcome(s.ca, sym, content, limit) == Added
    requires rs.fetch(s.calls, sym, v.st.input) == Got(content, [], [])
    ensures var r := StepOf(rs, v, LineBytes(LoadLine(sym, limit)) + rest);
      r.Onward? && r.code == rest && r.v.st.input == v.st.input
      && Looks(r.v, s.(calls := s.calls + 1, ca := CAdd(s.ca, sym, content, limit)))
  {
    var l := LoadLine(sym, limit);
    LineRead(rs, v, l, rest);
    ReadArguments(l, rest);
    OneByte(limit);
    assert ParseSymLen(Arguments(l) + rest) == Ok((sym, limit), rest);
    hide LineBytes, Arguments, ParseSymLen, CAdd, CGet, AddOutcome, StepOf, DoOp;
    LoadRan(rs, v, Arguments(l) + rest, sym, limit, content, rest);
  }

  lemma LoadRan(rs: Resource, v: VmV, b: Bytes, sym: Bytes, limit: byte, content: Bytes, rest: Bytes)
    requires Sound(v) && ParseSymLen(b) == Ok((sym, limit), rest)
    requires CGet(v.ca, sym).None? && AddOutcome(v.ca, sym, content, limit) == Added
    requires rs.fetch(v.calls, sym, v.st.input) == Got(content, [], [])
    ensures DoOp(rs, LOAD, v, b) == Ran(v.(calls := v.calls + 1, ca := CAdd(v.ca, sym, content, limit)), Go(rest))
  {
    hide ParseSymLen, CAdd, CGet, AddOutcome, Wrap16;
    WrapSmallLimit(limit);
    assert RefreshState(rs, v, sym) == v.(calls := v.calls + 1);
  }

  lemma WrapSmallLimit(n: byte)
    ensures Wrap16(n) == n
  {
  }

  /** LOAD of a symbol that is there. */
  lemma {:induction false} LoadsOld(rs: Resource, v: VmV, s: Sketch, sym: Bytes, limit: byte, rest: Bytes)
    requires Looks(v, s) && GoodSym(sym) && rest != [] && CGet(s.ca, sym).Some?
    ensures StepOf(rs, v, LineBytes(LoadLine(sym, limit)) + rest) == Onward(v, rest)
  {
    var l := LoadLine(sym, limit);
    LineRead(rs, v, l, rest);
    ReadArguments(l, rest);
    assert ParseSymLen(Arguments(l) + rest).Ok? && ParseSymLen(Arguments(l) + rest).value.0 == sym
        && ParseSymLen(Arguments(l) + rest).rest == rest;
    hide LineBytes, Arguments, ParseSymLen, CAdd, CGet, AddOutcome, StepOf, Wrap16;
    assert DoOp(rs, LOAD, v, Arguments(l) + rest) == Ran(v, Go(rest));
  }

  lemma {:induction false} MapsOne(rs: Resource, v: VmV, s: Sketch, sym: Bytes, rest: Bytes)
    requires Looks(v, s) && GoodSym(sym) && rest != []
    requires MapOut(s.pg, CGet(s.ca, sym), SizeOf(s.ca.sizes, sym), sym).None?
    ensures var r := StepOf(rs, v, LineBytes(MapLine(sym)) + rest);
      r.Onward? && r.code == rest && r.v.st.input == v.st.input
      && Looks(r.v, s.(pg := MapState(s.pg, CGet(s.ca, sym), SizeOf(s.ca.sizes, sym), sym)))
  {
    var l := MapLine(sym);
    LineRead(rs, v, l, rest);
    ReadArguments(l, rest);
    assert ParseSym(Arguments(l) + rest) == Ok(sym, rest);
    hide LineBytes, Arguments, ParseSym, CGet, StepOf;
    assert DoOp(rs, MAP, v, Arguments(l) + rest) == Ran(Mapped(v, sym), Go(rest));
  }

  /** RELOAD, of a symbol whose function may clear the first client flag. */
  lemma {:induction false} ReloadsOne(rs: Resource, v: VmV, s: Sketch, sym: Bytes, content: Bytes, clears: bool, rest: Bytes)
    requires Looks(v, s) && GoodSym(sym) && rest != []
    requires rs.fetch(s.calls, sym, v.st.input) == Got(content, if clears then [FLAG_USERSTART] else [], [])
    requires var ca := CUpdate(s.ca, sym, content); MapOut(s.pg, CGet(ca, sym), SizeOf(ca.sizes, sym), sym).None?
    ensures var r := StepOf(rs, v, LineBytes(ReloadLine(sym)) + rest);
      var ca := CUpdate(s.ca, sym, content);
      r.Onward? && r.code == rest && r.v.st.input == v.st.input
      && Looks(r.v, s.(on := s.on && !clears, calls := s.calls + 1, ca := ca,
                       pg := MapState(s.pg, CGet(ca, sym), SizeOf(ca.sizes, sym), sym)))
  {
    hide *;
    LooksSound(v, s);
    LooksPlace(v, s);
    ReloadRead(sym, rest);
    LineRead(rs, v, ReloadLine(sym), rest);
    ReloadRan(rs, v, Arguments(ReloadLine(sym)) + rest, sym, content, clears, rest);
    var flags := if clears then Flag8Off(v.st.flags) else v.st.flags;
    var w := v.(calls := v.calls + 1, st := v.st.(flags := flags), ca := CUpdate(v.ca, sym, content));
    ReloadLooks(v, s, sym, content, clears, w);
    SettlesOn(rs, Mapped(w, sym), rest);
  }

  function Flag8Off(flags: Flags): Flags
    requires |flags| > 8
  {
    flags[8 := false]
  }

  lemma ReloadRead(sym: Bytes, rest: Bytes)
    requires GoodSym(sym)
    ensures var l := ReloadLine(sym);
      WellFormed(l) && l.op == RELOAD != HALT && ParseSym(Arguments(l) + rest) == Ok(sym, rest)
  {
    SymRead(ReloadLine(sym), rest);
    hide Arguments, ParseSym;
  }

  lemma ReloadLooks(v: VmV, s: Sketch, sym: Bytes, content: Bytes, clears: bool, w: VmV)
    requires Looks(v, s)
    requires var flags := if clears then Flag8Off(v.st.flags) else v.st.flags;
      w == v.(calls := v.calls + 1, st := v.st.(flags := flags), ca := CUpdate(v.ca, sym, content))
    ensures var ca := CUpdate(s.ca, sym, content);
      && Sound(w) && Sound(Mapped(w, sym)) && Mapped(w, sym).st.input == v.st.input
      && Looks(Mapped(w, sym), s.(on := s.on && !clears, calls := s.calls + 1, ca := ca,
                                  pg := MapState(s.pg, CGet(ca, sym), SizeOf(ca.sizes, sym), sym)))
  {
    hide CGet, CUpdate;
  }

  lemma ReloadRan(rs: Resource, v: VmV, b: Bytes, sym: Bytes, content: Bytes, clears: bool, rest: Bytes)
    requires Sound(v) && |v.st.flags| > FLAG_USERSTART && ParseSym(b) == Ok(sym, rest)
    requires rs.fetch(v.calls, sym, v.st.input) == Got(content, if clears then [FLAG_USERSTART] else [], [])
    requires var ca := CUpdate(v.ca, sym, content); MapOut(v.pg, CGet(ca, sym), SizeOf(ca.sizes, sym), sym).None?
    ensures var flags := if clears then Flag8Off(v.st.flags) else v.st.flags;
      var w := v.(calls := v.calls + 1, st := v.st.(flags := flags), ca := CUpdate(v.ca, sym, content));
      DoOp(rs, RELOAD, v, b) == Ran(Mapped(w, sym), Go(rest))
  {
    hide ParseSym, CGet, CUpdate, WriteFlags, MapOut, MapState;
    FlagWritten(v.st.flags);
    var flags := if clears then v.st.flags[FLAG_USERSTART := false] else v.st.flags;
    assert RefreshState(rs, v, sym) == v.(calls := v.calls + 1, st := v.st.(flags := flags));
  }

  lemma FlagWritten(flags: Flags)
    requires |flags| > FLAG_USERSTART
    ensures WriteFlags(flags, [], false) == Some(flags)
    ensures forall f: Flags :: WriteFlags(f, [], true) == Some(f)
    ensures WriteFlags(flags, [FLAG_USERSTART], false) == Some(flags[FLAG_USERSTART := false])
  {
    assert [FLAG_USERSTART][1..] == [];
    assert forall f: Flags :: WriteFlags(f, [], false) == Some(f);
  }

  /** CATCH when the flag is set, up or to the next page. The page stays as it is. */
  lemma {:induction false} Catches(rs: Resource, v: VmV, s: Sketch, target: Bytes, node: Bytes, code: Bytes, rest: Bytes)
    requires Looks(v, s) && s.on && target in {UP, NEXT} && code != []
    requires if target == UP then s.path != [] && s.path[..|s.path| - 1] != [] && node == s.path[|s.path| - 2]
             else s.path != [] && node == s.path[|s.path| - 1]
    requires rs.code(node) == Some(code) && |s.ca.frames| >= 1
    ensures var r := StepOf(rs, v, LineBytes(CatchLine(target)) + rest);
      r.Onward? && r.code == code && r.v.st.input == v.st.input
      && Looks(r.v, if target == UP then s.(path := s.path[..|s.path| - 1], idx := 0, ca := CPop(s.ca))
                    else s.(idx := Wrap16(s.idx + 1)))
  {
    hide *;
    var l := CatchLine(target);
    CatchLineRead(target, rest);
    LooksSound(v, s);
    LooksPlace(v, s);
    LineRead(rs, v, l, rest);
    CatchRan(rs, v, Arguments(l) + rest, target, node, code, rest);
    CatchLooks(rs, v, s, target);
    SettlesOn(rs, Target(v, target), code);
  }

  lemma CatchLineRead(target: Bytes, rest: Bytes)
    requires target in {UP, NEXT}
    ensures var l := CatchLine(target);
      && WellFormed(l) && l.op == CATCH != HALT
      && ParseSymSig(Arguments(l) + rest) == Ok((target, FLAG_USERSTART, true), rest)
  {
    var l := CatchLine(target);
    ReadArguments(l, rest);
    OneByte(FLAG_USERSTART);
    hide LineBytes, Arguments, ParseSymSig;
    ParsedCatch(Arguments(l) + rest, target, FLAG_USERSTART, true, rest);
  }

  lemma ParsedCatch(b: Bytes, sym: Bytes, n: u32, m: bool, rest: Bytes)
    requires ParseArguments(CATCH, b) == Ok(Some(Catch(sym, n, m)), rest)
    ensures ParseSymSig(b) == Ok((sym, n, m), rest)
  {
    hide ParseSymSig;
  }

  lemma CatchLooks(rs: Resource, v: VmV, s: Sketch, target: Bytes)
    requires Looks(v, s) && s.path != [] && target in {UP, NEXT} && |s.ca.frames| >= 1
    requires Target(v, target) == if target == UP then v.(st := SUp(v.st), ca := CPop(v.ca)) else v.(st := SNext(v.st))
    ensures var w := Target(v, target);
      && w.st.input == v.st.input
      && Looks(w, if target == UP then s.(path := s.path[..|s.path| - 1], idx := 0, ca := CPop(s.ca))
                  else s.(idx := Wrap16(s.idx + 1)))
  {
    hide CPop, Target, Wrap16;
  }

  lemma SettlesOn(rs: Resource, w: VmV, code: Bytes)
    requires Sound(w) && code != []
    ensures Settle(rs, ErrCheck(rs, Ran(w, Go(code)))) == Onward(w, code)
  {
  }

  lemma CatchRan(rs: Resource, v: VmV, b: Bytes, target: Bytes, node: Bytes, code: Bytes, rest: Bytes)
    requires Sound(v) && |v.st.flags| > FLAG_USERSTART && v.st.flags[FLAG_USERSTART]
    requires ParseSymSig(b) == Ok((target, FLAG_USERSTART, true), rest) && rs.code(node) == Some(code) && target in {UP, NEXT}
    requires if target == UP then v.st.path != [] && v.st.path[..|v.st.path| - 1] != [] && node == v.st.path[|v.st.path| - 2]
             else v.st.path != [] && node == v.st.path[|v.st.path| - 1]
    ensures DoOp(rs, CATCH, v, b) == Ran(Target(v, target), Go(code))
    ensures Target(v, target) ==
      if target == UP then v.(st := SUp(v.st), ca := CPop(v.ca)) else v.(st := SNext(v.st))
  {
    hide ParseSymSig, CPop, Wrap16;
    assert TargetOut(v.st, target) == To(node);
  }

  /** CATCH when the flag is not set. */
  lemma {:induction false} Passes(rs: Resource, v: VmV, s: Sketch, target: Bytes, rest: Bytes)
    requires Looks(v, s) && !s.on && target in {UP, NEXT} && rest != []
    ensures StepOf(rs, v, LineBytes(CatchLine(target)) + rest) == Onward(v, rest)
  {
    var l := CatchLine(target);
    LineRead(rs, v, l, rest);
    ReadArguments(l, rest);
    OneByte(FLAG_USERSTART);
    assert ParseSymSig(Arguments(l) + rest) == Ok((target, FLAG_USERSTART, true), rest);
    hide LineBytes, Arguments, ParseSymSig, StepOf;
    assert DoOp(rs, CATCH, v, Arguments(l) + rest) == Ran(v, Go(rest));
  }

  // ----- the run -----

  /** `top` and, below it, `sub`. */
  const TOP_NODE: Bytes := [116, 111, 112]
  const SUB_NODE: Bytes := [115, 117, 98]

  const X: Bytes := SYMBOL
  const Y: Bytes := [121]

  const HALT_BYTES: Bytes := LineBytes(HALT_LINE)

  /** `LOAD x 10`, `MAP x`, `CATCH _` */
  const SUB_CODE: Bytes := LineBytes(LoadLine(X, 10)) + (LineBytes(MapLine(X)) + (LineBytes(CatchLine(UP)) + HALT_BYTES))

  /** `LOAD x 0`, `RELOAD y`, `CATCH >`, `HALT` */
  const TOP_CODE: Bytes := LineBytes(LoadLine(X, 0)) + TOP_TAIL
  const TOP_TAIL: Bytes := LineBytes(ReloadLine(Y)) + (LineBytes(CatchLine(NEXT)) + HALT_BYTES)

  /** `x` is `a`, and `y` is `b`; at its second reload it clears the first client flag. The top page shows `x`. */
  ghost predicate Scenario(rs: Resource) {
    && rs.code(TOP_NODE) == Some(TOP_CODE) && rs.title == PLAIN_TITLES && rs.template(TOP_NODE) == Some(SYMBOL_SOURCE)
    && forall input :: Answers(rs, input)
  }

  ghost predicate Answers(rs: Resource, input: Option<Bytes>) {
    && rs.fetch(0, X, input) == Got([A], [], []) && rs.fetch(1, X, input) == Got([A], [], [])
    && rs.fetch(2, Y, input) == Got([B], [], []) && rs.fetch(3, Y, input) == Got([B], [FLAG_USERSTART], [])
  }

  /** The cache at `sub`, with `y` loaded above it. */
  const CACHE: CacheV := CacheV(0, 1, [map[], map[Y := [B]], map[]], map[Y := 5], [B])

  /** A reset page with a menu of no items and a sizer. */
  const PAGE: PageV := PageV(map[], None, Some(NEW_MENU), Some(SizerV(100, map[], 0, [], [])), None, [])

  const START: Sketch := Sketch([TOP_NODE, SUB_NODE], 0, true, 0, CACHE, PAGE)

  /** The caches that the run goes through. */
  const AT_SUB: CacheV := CAdd(CACHE, X, [A], 10)
  ghost const BACK: CacheV := CPop(AT_SUB)
  ghost const AT_TOP: CacheV := CAdd(BACK, X, [A], 0)
  ghost const RELOADED: CacheV := CUpdate(AT_TOP, Y, [B])
  ghost const AT_END: CacheV := CUpdate(RELOADED, Y, [B])

  lemma SubCache()
    ensures CGet(CACHE, X).None? && AddOutcome(CACHE, X, [A], 10) == Added
    ensures AT_SUB.frames == [map[], map[Y := [B]], map[X := [A]]] && AT_SUB.sizes == map[Y := 5, X := 10] && AT_SUB.cap == 0
    ensures CGet(AT_SUB, X) == Some([A])
  {
    assert FrameOf(CACHE.frames, X) == -1;
    var frames := AT_SUB.frames;
    assert X in frames[2] && X !in frames[0] && X !in frames[1];
    assert FrameOf(frames, X) == 2;
  }

  lemma TopCache()
    ensures BACK.frames == [map[], map[Y := [B]]] && BACK.sizes == map[Y := 5] && BACK.cap == 0
    ensures CGet(BACK, X).None? && AddOutcome(BACK, X, [A], 0) == Added
    ensures AT_TOP.frames == [map[], map[Y := [B], X := [A]]] && AT_TOP.sizes == map[Y := 5, X := 0] && AT_TOP.cap == 0
  {
    SubCache();
    assert FrameOf(BACK.frames, X) == -1;
  }

  /** Reloading `y` with the value it has changes neither frames nor sizes. */
  lemma YReloaded(ca: CacheV)
    requires ca.frames == AT_TOP.frames && ca.sizes == AT_TOP.sizes && ca.cap == 0
    ensures var r := CUpdate(ca, Y, [B]);
      && r.frames == AT_TOP.frames && r.sizes == AT_TOP.sizes && r.cap == 0
      && CGet(r, Y) == Some([B]) && CGet(r, X).Some?
    ensures CGet(ca, X).Some?
  {
    TopCache();
    var frames := AT_TOP.frames;
    assert FrameOf(frames, Y) == 1 && FrameOf(frames, X) == 1;
    assert frames[1][Y := [B]] == frames[1] && frames[1 := frames[1]] == frames;
    hide CPop;
  }

  /** The page with some values mapped, as its sizer has been told of them. */
  function PageWith(values: map<Bytes, Bytes>, members: map<Bytes, u16>, total: u32): PageV {
    PAGE.(values := values, sizer := Some(SizerV(100, members, total, [], [])))
  }

  const PAGE_X: PageV := PageWith(map[X := [A]], map[X := 10], 10)
  const PAGE_XY: PageV := PageWith(map[X := [A], Y := [B]], map[X := 10, Y := 5], 15)
  const PAGE_END: PageV := PageWith(map[X := [A], Y := [B]], map[X := 10, Y := 5], 20)

  lemma PagesMapped()
    ensures MapOut(PAGE, Some([A]), Some(10), X).None? && MapState(PAGE, Some([A]), Some(10), X) == PAGE_X
    ensures MapOut(PAGE_X, Some([B]), Some(5), Y).None? && MapState(PAGE_X, Some([B]), Some(5), Y) == PAGE_XY
    ensures MapOut(PAGE_XY, Some([B]), Some(5), Y).None? && MapState(PAGE_XY, Some([B]), Some(5), Y) == PAGE_END
  {
    WrapSmall(10);
    WrapSmall(15);
    WrapSmall(20);
    hide Wrap32;
    assert map[X := [A], Y := [B]][Y := [B]] == map[X := [A], Y := [B]];
    assert map[X := 10, Y := 5][Y := 5] == map[X := 10, Y := 5];
  }

  lemma NotEmpty(l: Line, rest: Bytes)
    ensures LineBytes(l) + rest != [] && LineBytes(l) != []
  {
  }

  /** One step that goes on, and then `n` more. */
  lemma StepAndMore(rs: Resource, v: VmV, b: Bytes, n: nat)
    requires Sound(v) && StepOf(rs, v, b).Onward?
    ensures Run(rs, v, b, n + 1) == Run(rs, StepOf(rs, v, b).v, StepOf(rs, v, b).code, n)
  {
    hide StepOf;
    RunOnce(rs, v, b, n + 1);
  }

  lemma NoStep(rs: Resource, v: VmV, b: Bytes)
    requires Sound(v)
    ensures Run(rs, v, b, 0) == Onward(v, b)
  {
  }

  lemma LooksSound(v: VmV, s: Sketch)
    requires Looks(v, s)
    ensures Sound(v) && Idle(v)
  {
  }

  /** From `sub` to `top`, with `x` mapped on the page and its cache level gone. */
  lemma {:induction false} LeavesSub(rs: Resource, v: VmV)
    requires Scenario(rs) && Looks(v, START)
    ensures Sound(v)
    ensures var r := Run(rs, v, SUB_CODE, 3);
      r.Onward? && r.code == TOP_CODE && Looks(r.v, Sketch([TOP_NODE], 0, true, 1, BACK, PAGE_X))
  {
    hide StepOf, Run, Looks, LineBytes, CAdd, CPop, MapState, MapOut, AddOutcome, CGet;
    LooksSound(v, START);
    SubCache();
    PagesMapped();
    assert Answers(rs, v.st.input);
    var b2 := LineBytes(CatchLine(UP)) + HALT_BYTES;
    var b1 := LineBytes(MapLine(X)) + b2;
    NotEmpty(MapLine(X), b2);
    NotEmpty(CatchLine(UP), HALT_BYTES);
    NotEmpty(LoadLine(X, 0), TOP_TAIL);
    LoadsNew(rs, v, START, X, 10, [A], b1);
    var v1, s1 := StepOf(rs, v, SUB_CODE).v, START.(calls := 1, ca := AT_SUB);
    LooksSound(v1, s1);
    MapsOne(rs, v1, s1, X, b2);
    var v2, s2 := StepOf(rs, v1, b1).v, s1.(pg := PAGE_X);
    LooksSound(v2, s2);
    assert [TOP_NODE, SUB_NODE][..1] == [TOP_NODE];
    Catches(rs, v2, s2, UP, TOP_NODE, TOP_CODE, HALT_BYTES);
    StepAndMore(rs, v, SUB_CODE, 2);
    StepAndMore(rs, v1, b1, 1);
    StepAndMore(rs, v2, b2, 0);
    LooksSound(StepOf(rs, v2, b2).v, Sketch([TOP_NODE], 0, true, 1, BACK, PAGE_X));
    NoStep(rs, StepOf(rs, v2, b2).v, TOP_CODE);
  }

  lemma EndCache()
    ensures CGet(RELOADED, Y) == Some([B]) && RELOADED.sizes == map[Y := 5, X := 0] && |RELOADED.frames| == 2
    ensures CGet(AT_END, Y) == Some([B]) && AT_END.sizes == map[Y := 5, X := 0] && CGet(RELOADED, X).Some?
  {
    hide CGet, CUpdate, CPop, CAdd;
    TopCache();
    YReloaded(AT_TOP);
    YReloaded(RELOADED);
  }

  /** At `top`, `x` is loaded again, now without a limit, and the CATCH turns the page. */
  lemma {:induction false} TurnsPage(rs: Resource, v: VmV)
    requires Scenario(rs) && Looks(v, Sketch([TOP_NODE], 0, true, 1, BACK, PAGE_X))
    ensures Sound(v)
    ensures var r := Run(rs, v, TOP_CODE, 3);
      r.Onward? && r.code == TOP_CODE && Looks(r.v, Sketch([TOP_NODE], 1, true, 3, RELOADED, PAGE_XY))
  {
    hide StepOf, Run, Looks, LineBytes, CAdd, CPop, CUpdate, MapState, MapOut, AddOutcome, CGet;
    var s := Sketch([TOP_NODE], 0, true, 1, BACK, PAGE_X);
    LooksSound(v, s);
    TopCache();
    EndCache();
    PagesMapped();
    assert Answers(rs, v.st.input);
    var b2 := LineBytes(CatchLine(NEXT)) + HALT_BYTES;
    NotEmpty(ReloadLine(Y), b2);
    NotEmpty(CatchLine(NEXT), HALT_BYTES);
    NotEmpty(LoadLine(X, 0), TOP_TAIL);
    LoadsNew(rs, v, s, X, 0, [A], TOP_TAIL);
    var v1, s1 := StepOf(rs, v, TOP_CODE).v, s.(calls := 2, ca := AT_TOP);
    LooksSound(v1, s1);
    ReloadsOne(rs, v1, s1, Y, [B], false, b2);
    var v2, s2 := StepOf(rs, v1, TOP_TAIL).v, s1.(calls := 3, ca := RELOADED, pg := PAGE_XY);
    LooksSound(v2, s2);
    Catches(rs, v2, s2, NEXT, TOP_NODE, TOP_CODE, HALT_BYTES);
    StepAndMore(rs, v, TOP_CODE, 2);
    StepAndMore(rs, v1, TOP_TAIL, 1);
    StepAndMore(rs, v2, b2, 0);
    PageOne();
    LooksSound(StepOf(rs, v2, b2).v, s2.(idx := 1));
    NoStep(rs, StepOf(rs, v2, b2).v, TOP_CODE);
  }

  lemma PageOne()
    ensures Wrap16(0 + 1) == 1
  {
  }

  /** On the second page the flag is cleared, and the run halts. */
  lemma {:induction false} Halts(rs: Resource, v: VmV)
    requires Scenario(rs) && Looks(v, Sketch([TOP_NODE], 1, true, 3, RELOADED, PAGE_XY))
    ensures Sound(v)
    ensures var r := Run(rs, v, TOP_CODE, 4);
      && r.Returned? && r.code == [] && r.v.st.path == [TOP_NODE] && r.v.st.idx == 1
      && r.v.pg == PAGE_END && r.v.ca.sizes == map[Y := 5, X := 0]
  {
    hide StepOf, Run, Looks, LineBytes, CAdd, CPop, CUpdate, MapState, MapOut, AddOutcome, CGet;
    var s := Sketch([TOP_NODE], 1, true, 3, RELOADED, PAGE_XY);
    LooksSound(v, s);
    EndCache();
    PagesMapped();
    assert Answers(rs, v.st.input);
    var b2 := LineBytes(CatchLine(NEXT)) + HALT_BYTES;
    NotEmpty(ReloadLine(Y), b2);
    NotEmpty(CatchLine(NEXT), HALT_BYTES);
    NotEmpty(HALT_LINE, []);
    LoadsOld(rs, v, s, X, 0, TOP_TAIL);
    ReloadsOne(rs, v, s, Y, [B], true, b2);
    var v1, s1 := StepOf(rs, v, TOP_TAIL).v, s.(on := false, calls := 4, ca := AT_END, pg := PAGE_END);
    LooksSound(v1, s1);
    Passes(rs, v1, s1, NEXT, HALT_BYTES);
    HaltStep(rs, v1, []);
    assert HALT_BYTES + [] == HALT_BYTES;
    StepAndMore(rs, v, TOP_CODE, 3);
    StepAndMore(rs, v, TOP_TAIL, 2);
    StepAndMore(rs, v1, b2, 1);
    OneStep(rs, v1, HALT_BYTES);
    LooksPlace(v1, s1);
  }

  lemma LooksPlace(v: VmV, s: Sketch)
    requires Looks(v, s)
    ensures v.st.path == s.path && v.st.idx == s.idx && v.pg == s.pg && v.ca == s.ca
    ensures |v.st.flags| > FLAG_USERSTART == 8 && v.st.flags[FLAG_USERSTART] == s.on && v.calls == s.calls
  {
  }

  /** What is mapped at the end has a sink, which the sizer was never told of. */
  const END_SPLIT: SplitV := SplitDone(map[X := [], Y := [B]], X, [[A]])

  lemma EndSplits()
    ensures Splits(PAGE_END.values, map[Y := 5, X := 0], END_SPLIT)
    ensures PAGE_END.sizer.value.sink == [] != END_SPLIT.sink
  {
    var values, sizes: map<Bytes, u16> := PAGE_END.values, map[Y := 5, X := 0];
    var a: Bytes, nothing: Bytes := [A], [];
    assert a[1..] == nothing;
    assert SplitLines(nothing) == [nothing];
    assert [A] + nothing == a;
    assert SplitLines(a) == [a];
    assert Emptied(values, sizes, values.Keys) == map[X := [], Y := [B]];
  }

  /** The page holds one line, and counts one page: the second is a browse error. */
  lemma {:induction false} EndFails(rs: Resource)
    requires Scenario(rs)
    ensures IsBrowseError(PageOut(PAGE_END, END_SPLIT, rs, TOP_NODE, 1))
  {
    hide Pack, Expand, Composed, SunkText, MSizes, LineBytes;
    var p, sp := PAGE_END, END_SPLIT;
    ValueText(rs, [A]);
    OneLinePacked();
    NoMenuSizes();
    WrapHundred();
    EndBase(rs);
    assert PackingOf(p, 100, sp.items) == Packed([], [[A]], 99);
    CheckFits(100, []);
    assert sp.noSink[X := [A]] == map[X := [A], Y := [B]];
    assert FillOut(p, rs, TOP_NODE, sp) == Done(map[X := [A], Y := [B]]);
    var p' := FillState(p, rs, TOP_NODE, sp, false);
    assert p'.menu.value.pageCount == 1;
    assert TemplateText(p', rs, TOP_NODE, map[X := [A], Y := [B]], 1) == Done([A]);
  }

  lemma {:induction false} EndBase(rs: Resource)
    requires Scenario(rs)
    ensures RenderOut(WithCursors(PAGE_END, [0]), rs, TOP_NODE, END_SPLIT.noSink, 0) == Done([])
    ensures RenderState(WithCursors(PAGE_END, [0]), rs, TOP_NODE, END_SPLIT.noSink, 0) == WithCursors(PAGE_END, [0])
  {
    hide Expand, Composed, LineBytes;
    var p1 := WithCursors(PAGE_END, [0]);
    ValueText(rs, []);
    assert TemplateText(p1, rs, TOP_NODE, END_SPLIT.noSink, 0) == Done([]);
    assert MRenderOut(p1.menu.value, rs.title, 0) == Rendered([]);
  }

  lemma WrapHundred()
    ensures Wrap32(100 - 1) == 99 && Wrap16(1) == 1
  {
  }

  lemma {:induction false} OneLinePacked()
    ensures Pack([[A]], 99, 0) == Packed([], [[A]], 99)
    ensures SunkText(Packed([], [[A]], 99)) == [A]
  {
    var none: seq<Bytes>, one: seq<Bytes> := [], [[A]];
    assert one[..0] == none;
    assert PageText(none) == [] && PageText(one) == [A];
    assert Pack(none, 99, 0) == Packed([], none, 99);
    var nothing: Bytes := [];
    assert ClosedText([]) == nothing && nothing + [A] == [A];
  }

  lemma {:induction false} ValueText(rs: Resource, text: Bytes)
    ensures Expand(rs, Composed(SYMBOL_SOURCE, [], None), map[X := text, Y := [B]]) == Done(text)
  {
    hide Compile;
    SymbolCompiles();
    var t: Template, none: Template, nothing: Bytes := [Ref(X)], [], [];
    var values := map[X := text, Y := [B]];
    assert t[1..] == none;
    assert Execute(none, values) == Some(nothing);
    assert text + nothing == text;
  }

  /**
   A run that reaches a browse error. At `sub`, `x` is loaded with a limit and mapped, and a CATCH goes up: it leaves the
   page as it is, while the cache forgets `x`. At `top`, `x` is loaded without a limit, and another CATCH turns the page.
   The run halts, and the page shown next is a browse error: the symbol that is now the sink was mapped when it was none.
   */
  lemma {:induction false} CatchReachesBrowseError(rs: Resource, v: VmV)
    requires Scenario(rs) && Looks(v, START)
    ensures Sound(v)
    ensures var r := Run(rs, v, SUB_CODE, 10);
      && r.Returned? && r.code == [] && Where(r.v.st) == TOP_NODE && r.v.st.idx == 1
      && Splits(r.v.pg.values, r.v.ca.sizes, END_SPLIT)
      && IsBrowseError(PageOut(r.v.pg, END_SPLIT, rs, Where(r.v.st), r.v.st.idx))
  {
    hide *;
    LooksSound(v, START);
    LeavesSub(rs, v);
    var v1 := Run(rs, v, SUB_CODE, 3).v;
    TurnsPage(rs, v1);
    var v2 := Run(rs, v1, TOP_CODE, 3).v;
    Halts(rs, v2);
    RunJoins(rs, v, SUB_CODE, 3, 7);
    RunJoins(rs, v1, TOP_CODE, 3, 4);
    EndSplits();
    EndFails(rs);
    AtTop(Run(rs, v2, TOP_CODE, 4).v.st);
  }

  lemma AtTop(st: StateV)
    requires st.path == [TOP_NODE]
    ensures Where(st) == TOP_NODE
  {
  }
}
