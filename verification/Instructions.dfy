/** What each instruction does to the machine, told from its line of code (vm/runner.go). */
module Instructions {
  import opened Common
  import opened Codec
  import opened CodecProofs
  import opened States
  import opened Caching
  import opened Menus
  import opened Resources
  import opened Rendering
  import opened Navigation
  import opened Running
  import opened Dispatch

  // ----- what is common to all -----

  lemma LineRead(rs: Resource, v: VmV, l: Line, rest: Bytes)
    requires Idle(v) && WellFormed(l) && l.op != HALT
    ensures StepOf(rs, v, LineBytes(l) + rest) == Settle(rs, ErrCheck(rs, DoOp(rs, l.op, v, Arguments(l) + rest)))
  {
    PreludeIdle(v);
    ReadOpcode(l, rest);
    hide LineBytes, Arguments, DoOp, OpSplit, Prelude;
  }

  /**
   A step that has raised an error: the message is put on the page; then the error ends the run, or, once a load
   has failed, the run goes on with a move to the catch node.
   */
  function Failing(rs: Resource, w: VmV, code: Bytes, e: VmError): Step
    requires Sound(w)
  {
    var w' := w.(pg := w.pg.(err := Some(rs.message(e))));
    if w.st.flags[FLAG_LOADFAIL] then Onward(w', [0, 6, 6, 95, 99, 97, 116, 99, 104]) else Errored(w', code)
  }

  lemma MoveCatchBytes()
    ensures MOVE_CATCH == [0, 6, 6, 95, 99, 97, 116, 99, 104]
  {
    assert [CATCH_NODE][1..] == [];
    assert PrefixedAll([]) == [];
    assert PrefixedAll([CATCH_NODE]) == [6] + CATCH_NODE + [];
  }

  lemma RaiseFails(rs: Resource, w: VmV, code: Bytes, e: VmError)
    requires Sound(w)
    ensures Settle(rs, ErrCheck(rs, Ran(w, Raise(code, e)))) == Failing(rs, w, code, e)
  {
    MoveCatchBytes();
  }

  lemma GoSettles(rs: Resource, w: VmV, code: Bytes)
    requires Sound(w)
    ensures Settle(rs, ErrCheck(rs, Ran(w, Go(code)))) == Settle(rs, Onward(w, code))
    ensures code != [] ==> Settle(rs, Onward(w, code)) == Onward(w, code)
  {
  }

  lemma CrashSettles(rs: Resource, w: VmV)
    requires Sound(w)
    ensures Settle(rs, ErrCheck(rs, Ran(w, Crash))).Died?
  {
  }

  /**
   Where no code is left: without input being read the machine terminates; else it returns if it was to terminate, fails at no
   node and at the catch node, and otherwise goes on with a move to the catch node and a complaint about the input.
   */
  lemma NoCodeLeft(rs: Resource, v: VmV)
    requires Sound(v)
    ensures Settle(rs, Onward(v, [])) ==
      if !v.st.flags[0] then Returned(v.(st := v.st.(flags := v.st.flags[6 := true])), [])
      else if v.st.flags[6] then Returned(v, [])
      else if v.st.path == [] || v.st.path[|v.st.path| - 1] in {[], [95, 99, 97, 116, 99, 104]} then Errored(v, [])
      else
        var complaint := InvalidInput(if v.st.input.Some? then v.st.input.value else [40, 110, 111, 32, 105, 110, 112, 117, 116, 41]);
        Onward(v.(pg := v.pg.(err := Some(rs.message(complaint)))), [0, 6, 6, 95, 99, 97, 116, 99, 104])
  {
    MoveCatchBytes();
  }

  /**
   Ahead of each instruction LANG and WAIT are cleared and DIRTY is set; where WAIT was set, INMATCH is cleared as well and the page
   is reset. No other flag changes.
   */
  lemma PreludeMeans(v: VmV)
    requires Sound(v)
    ensures var p := Prelude(v);
      && p.ca == v.ca && p.sep == v.sep && p.calls == v.calls && p.st.(flags := v.st.flags) == v.st
      && p.pg == (if v.st.flags[2] then PReset(v.pg) else v.pg)
      && |p.st.flags| == |v.st.flags|
      && forall i :: 0 <= i < |v.st.flags| ==>
           p.st.flags[i] ==
             if i == 4 then true else if i == 2 || i == 7 || (i == 1 && v.st.flags[2]) then false else v.st.flags[i]
  {
    hide PReset;
  }

  /** A reset page has nothing mapped, no sink and no cursors; a pending error and the sizer's own sink stay. */
  lemma PageReset(p: PageV)
    ensures var r := PReset(p);
      && r.values == map[] && r.sink.None? && r.extra == [] && r.err == p.err
      && (r.sizer.Some? <==> p.sizer.Some?)
      && (p.sizer.Some? ==> r.sizer.value == p.sizer.value.(crsrs := []))
      && (r.menu.Some? <==> p.menu.Some?)
      && (p.menu.Some? ==>
            var m, b := p.menu.value, p.menu.value.browse;
            r.menu.value == MenuV([], b, m.pageCount, m.canNext || b.NextAvailable, m.canPrevious || b.PreviousAvailable,
                                  false, m.keep, m.sep))
  {
  }

  /** The reset of the machine is that of the page, with a new menu; its separator is that of the machine, or a colon. */
  lemma MachineReset(v: VmV)
    ensures var r := VReset(v);
      && r.st == v.st && r.ca == v.ca && r.sep == v.sep && r.calls == v.calls
      && r.pg == PReset(v.pg).(menu := r.pg.menu)
      && r.pg.menu == Some(MenuV([], BrowseConfig(false, [], [], false, [], []), 0, false, false, false, true,
                                 if v.sep == [] then [58] else v.sep))
  {
    hide PReset;
  }

  // ----- moves -----

  /** The machine after the move of a target. */
  ghost function MovedTo(v: VmV, target: Bytes): (r: VmV)
    requires Sound(v)
    ensures Sound(r)
  {
    var p := TargetPlace(Place(v.st, v.ca), target);
    v.(st := p.st, ca := p.ca)
  }

  /**
   CATCH, for every flag, mode, target and code. A flag that does not exist is a panic. With the flag unlike the mode the machine stays
   as it is and goes on with the rest. With the flag like the mode it moves, stack and cache alone, and goes on with
   exactly the code of the node; a target that leads nowhere, and a node without code, are errors.
   */
  lemma CatchMeans(rs: Resource, v: VmV, l: Line, rest: Bytes)
    requires Idle(v) && WellFormed(l) && l.op == CATCH
    ensures
      var target, n, mode := l.strargs[0], FromBytes(l.byteargs.value), l.numargs[0] > 0;
      var r := StepOf(rs, v, LineBytes(l) + rest);
      if n >= |v.st.flags| then r.Died?
      else if v.st.flags[n] != mode then r == Settle(rs, Onward(v, rest))
      else
        match TargetOut(v.st, target)
        case NavPanic => r.Died?
        case To(node) =>
          var code := rs.code(node);
          r == if code.Some? then Settle(rs, Onward(MovedTo(v, target), code.value))
               else Failing(rs, MovedTo(v, target), rest, NoCode)
        case _ => r == Failing(rs, v, rest, BadTarget)
  {
    hide *;
    CatchRead(l, rest);
    LineRead(rs, v, l, rest);
    IdleSound(v);
    CatchRuns(rs, v, Arguments(l) + rest, l.strargs[0], FromBytes(l.byteargs.value), l.numargs[0] > 0, rest);
  }

  lemma IdleSound(v: VmV)
    requires Idle(v)
    ensures Sound(v)
  {
  }

  lemma CatchRead(l: Line, rest: Bytes)
    requires WellFormed(l) && l.op == CATCH
    ensures |l.strargs| == 1 && l.byteargs.Some? && |l.numargs| == 1 && l.op != HALT
    ensures FromBytes(l.byteargs.value) < 0x1_0000_0000
    ensures ParseSymSig(Arguments(l) + rest) == Ok((l.strargs[0], FromBytes(l.byteargs.value), l.numargs[0] > 0), rest)
  {
    ReadArguments(l, rest);
    hide Arguments, ParseSymSig, FromBytes;
  }

  lemma CatchRuns(rs: Resource, v: VmV, b: Bytes, target: Bytes, n: u32, mode: bool, rest: Bytes)
    requires Sound(v) && ParseSymSig(b) == Ok((target, n, mode), rest)
    ensures
      var r := Settle(rs, ErrCheck(rs, DoOp(rs, CATCH, v, b)));
      if n >= |v.st.flags| then r.Died?
      else if v.st.flags[n] != mode then r == Settle(rs, Onward(v, rest))
      else
        match TargetOut(v.st, target)
        case NavPanic => r.Died?
        case To(node) =>
          var code := rs.code(node);
          r == if code.Some? then Settle(rs, Onward(MovedTo(v, target), code.value))
               else Failing(rs, MovedTo(v, target), rest, NoCode)
        case _ => r == Failing(rs, v, rest, BadTarget)
  {
    hide ParseSymSig, TargetOut, TargetPlace, DeadCheck;
    MoveCatchBytes();
  }

  /** `ouch` */
  const OUCH: Bytes := [111, 117, 99, 104]

  /** `CATCH ouch 8 0` or `CATCH ouch 8 1` */
  function CatchOuch(mode: byte): Bytes {
    [0, 1, 4, 111, 117, 99, 104, 1, 8, mode]
  }

  /** With flag 8 clear the first of these enters `ouch`, and the second goes on; with flag 8 set it is the other way round. */
  lemma {:induction false} CatchOuchMeans(rs: Resource, v: VmV, mode: byte, code: Bytes, rest: Bytes)
    requires Idle(v) && |v.st.flags| > 8 && mode <= 1 && rest != [] && code != [] && rs.code(OUCH) == Some(code)
    requires |v.st.path| <= 128 && (v.st.path != [] ==> v.st.path[|v.st.path| - 1] != OUCH)
    ensures
      var r := StepOf(rs, v, CatchOuch(mode) + rest);
      if v.st.flags[8] == (mode == 1) then
        && r.Onward? && r.code == code && r.v.st.path == v.st.path + [OUCH] && r.v.st.idx == 0
        && r.v.ca.frames == v.ca.frames + [map[]] && r.v.pg == v.pg && r.v.st.flags == v.st.flags
      else r == Onward(v, rest)
  {
    var l := Line(CATCH, [OUCH], Some([8]), [mode]);
    OuchBytes(mode);
    hide StepOf, LineBytes, FromBytes, CatchOuch, Settle, TargetOut, TargetPlace, Idle;
    IdleSound(v);
    CatchMeans(rs, v, l, rest);
    EntersOuch(v);
    GoSettles(rs, v, rest);
    GoSettles(rs, MovedTo(v, OUCH), code);
  }

  lemma EntersOuch(v: VmV)
    requires Sound(v) && |v.st.path| <= 128 && (v.st.path != [] ==> v.st.path[|v.st.path| - 1] != OUCH)
    ensures TargetOut(v.st, OUCH) == To(OUCH)
    ensures var w := MovedTo(v, OUCH);
      && w.st.path == v.st.path + [OUCH] && w.st.idx == 0 && w.st.flags == v.st.flags
      && w.ca.frames == v.ca.frames + [map[]] && w.pg == v.pg
  {
  }

  lemma OuchBytes(mode: byte)
    ensures LineBytes(Line(CATCH, [OUCH], Some([8]), [mode])) == CatchOuch(mode)
    ensures FromBytes([8]) == 8
  {
    assert [OUCH][1..] == [];
    assert [8][..0] == [];
    assert FromBytes([]) == 0;
    assert PrefixedAll([]) == [];
    assert PrefixedAll([OUCH]) == [4] + OUCH + [];
  }

  /** MOVE: the same, but with a reset, and the code of the node is put behind the rest. */
  lemma MoveMeans(rs: Resource, v: VmV, l: Line, rest: Bytes)
    requires Idle(v) && WellFormed(l) && l.op == MOVE
    ensures
      var target := l.strargs[0];
      var r := StepOf(rs, v, LineBytes(l) + rest);
      match TargetOut(v.st, target)
      case NavPanic => r.Died?
      case To(node) =>
        var code := rs.code(node);
        r == if code.Some? then Settle(rs, Onward(VReset(MovedTo(v, target)), rest + code.value))
             else Failing(rs, MovedTo(v, target), rest, NoCode)
      case _ => r == Failing(rs, v, rest, BadTarget)
  {
    hide *;
    SymRead(l, rest);
    LineRead(rs, v, l, rest);
    IdleSound(v);
    MoveRuns(rs, v, Arguments(l) + rest, l.strargs[0], rest);
  }

  lemma SymRead(l: Line, rest: Bytes)
    requires WellFormed(l) && (l.op == MOVE || l.op == MAP || l.op == RELOAD)
    ensures |l.strargs| == 1 && l.op != HALT && ParseSym(Arguments(l) + rest) == Ok(l.strargs[0], rest)
  {
    ReadArguments(l, rest);
    hide Arguments, ParseSym;
  }

  lemma MoveRuns(rs: Resource, v: VmV, b: Bytes, target: Bytes, rest: Bytes)
    requires Sound(v) && ParseSym(b) == Ok(target, rest)
    ensures
      var r := Settle(rs, ErrCheck(rs, DoOp(rs, MOVE, v, b)));
      match TargetOut(v.st, target)
      case NavPanic => r.Died?
      case To(node) =>
        var code := rs.code(node);
        r == if code.Some? then Settle(rs, Onward(VReset(MovedTo(v, target)), rest + code.value))
             else Failing(rs, MovedTo(v, target), rest, NoCode)
      case _ => r == Failing(rs, v, rest, BadTarget)
  {
    hide ParseSym, TargetOut, TargetPlace, DeadCheck, VReset;
    MoveCatchBytes();
  }

  /** The machine with its READIN and INMATCH flags at some values. */
  function WithInput(v: VmV, reading: bool, matched: bool): (r: VmV)
    requires Sound(v)
    ensures Sound(r)
  {
    v.(st := v.st.(flags := v.st.flags[0 := reading][1 := matched]))
  }

  /**
   INCMP, on every flag and input. After a match it is passed over while input is read again; else the first one begins to read
   input. It matches its selector, and before any match the wildcard, too. A match moves with a reset, and the code of the node is
   put behind the rest; on the first page there is no previous one, which leaves both flags set.
   */
  lemma InCmpMeans(rs: Resource, v: VmV, l: Line, rest: Bytes)
    requires Idle(v) && WellFormed(l) && l.op == INCMP
    ensures
      var target, sel, reading, have := l.strargs[0], l.strargs[1], v.st.flags[0], v.st.flags[1];
      var r := StepOf(rs, v, LineBytes(l) + rest);
      var seen := WithInput(v, if have then reading else true, have);
      var matched := WithInput(v, false, true);
      if have && reading then r == Settle(rs, Onward(v, rest))
      else if v.st.input.None? then r == Failing(rs, seen, rest, NoInput)
      else if sel != v.st.input.value && (have || sel != [42]) then r == Settle(rs, Onward(seen, rest))
      else
        match TargetOut(v.st, target)
        case AtFirstPage => r == Settle(rs, Onward(WithInput(v, true, true), rest))
        case NavPanic => r.Died?
        case Refused => r == Failing(rs, matched, rest, BadTarget)
        case To(node) =>
          var w, code := VReset(MovedTo(matched, target)), rs.code(node);
          r == if code.Some? then Settle(rs, Onward(w, rest + code.value)) else Failing(rs, w, rest, NoCode)
  {
    hide *;
    TwoSymRead(l, rest);
    LineRead(rs, v, l, rest);
    IdleSound(v);
    InCmpRuns(rs, v, Arguments(l) + rest, l.strargs[0], l.strargs[1], rest);
  }

  lemma TwoSymRead(l: Line, rest: Bytes)
    requires WellFormed(l) && l.op == INCMP
    ensures |l.strargs| == 2 && l.op != HALT && ParseTwoSym(Arguments(l) + rest) == Ok((l.strargs[0], l.strargs[1]), rest)
  {
    ReadArguments(l, rest);
    hide Arguments, ParseTwoSym;
  }

  lemma InCmpRuns(rs: Resource, v: VmV, b: Bytes, target: Bytes, sel: Bytes, rest: Bytes)
    requires Sound(v) && ParseTwoSym(b) == Ok((target, sel), rest)
    ensures
      var reading, have := v.st.flags[0], v.st.flags[1];
      var r := Settle(rs, ErrCheck(rs, DoOp(rs, INCMP, v, b)));
      var seen := WithInput(v, if have then reading else true, have);
      var matched := WithInput(v, false, true);
      if have && reading then r == Settle(rs, Onward(v, rest))
      else if v.st.input.None? then r == Failing(rs, seen, rest, NoInput)
      else if sel != v.st.input.value && (have || sel != [42]) then r == Settle(rs, Onward(seen, rest))
      else
        match TargetOut(v.st, target)
        case AtFirstPage => r == Settle(rs, Onward(WithInput(v, true, true), rest))
        case NavPanic => r.Died?
        case Refused => r == Failing(rs, matched, rest, BadTarget)
        case To(node) =>
          var w, code := VReset(MovedTo(matched, target)), rs.code(node);
          r == if code.Some? then Settle(rs, Onward(w, rest + code.value)) else Failing(rs, w, rest, NoCode)
  {
    hide ParseTwoSym, TargetOut, TargetPlace, DeadCheck, VReset, DoMatch, MovedTo, WithInput, WithFlag, Failing, Settle, ErrCheck;
    var have := v.st.flags[1];
    var v1 := if have then v else WithFlag(v, FLAG_READIN, true);
    var seen := WithInput(v, if have then v.st.flags[0] else true, have);
    SeenIs(v);
    if have && v.st.flags[0] {
      GoSettles(rs, v, rest);
    } else if v.st.input.None? {
      RaiseFails(rs, seen, rest, NoInput);
    } else {
      GoSettles(rs, seen, rest);
      MatchRuns(rs, seen, target, rest);
      var a := if have then v.st.flags[0] else true;
      InputTwice(v, a, have, false);
      InputTwice(v, a, have, true);
      SameTarget(v, a, have, target);
    }
  }

  lemma SeenIs(v: VmV)
    requires Sound(v)
    ensures (if v.st.flags[1] then v else WithFlag(v, FLAG_READIN, true)) ==
      WithInput(v, if v.st.flags[1] then v.st.flags[0] else true, v.st.flags[1])
    ensures forall a, b :: WithInput(v, a, b).st.input == v.st.input && WithInput(v, a, b).st.flags[1] == b
  {
    assert v.st.flags[0 := v.st.flags[0]][1 := v.st.flags[1]] == v.st.flags;
    assert v.st.flags[0 := true][1 := v.st.flags[1]] == v.st.flags[0 := true];
  }

  lemma InputTwice(v: VmV, a: bool, b: bool, c: bool)
    requires Sound(v)
    ensures WithInput(WithInput(v, a, b), c, true) == WithInput(v, c, true)
  {
    assert v.st.flags[0 := a][1 := b][0 := c][1 := true] == v.st.flags[0 := c][1 := true];
  }

  /** Flags have no part in where a target leads. */
  lemma SameTarget(v: VmV, a: bool, b: bool, target: Bytes)
    requires Sound(v)
    ensures TargetOut(WithInput(v, a, b).st, target) == TargetOut(v.st, target)
  {
    hide ValidTarget;
  }

  lemma MatchedIs(v: VmV)
    requires Sound(v)
    ensures WithFlag(WithFlag(v, FLAG_INMATCH, true), FLAG_READIN, false) == WithInput(v, false, true)
    ensures WithFlag(WithInput(v, false, true), FLAG_READIN, true) == WithInput(v, true, true)
  {
    assert v.st.flags[1 := true][0 := false] == v.st.flags[0 := false][1 := true];
    assert v.st.flags[0 := false][1 := true][0 := true] == v.st.flags[0 := true][1 := true];
  }

  lemma MatchRuns(rs: Resource, v: VmV, target: Bytes, rest: Bytes)
    requires Sound(v)
    ensures
      var r := Settle(rs, ErrCheck(rs, DoMatch(rs, v, target, rest)));
      var matched := WithInput(v, false, true);
      match TargetOut(v.st, target)
      case AtFirstPage => r == Settle(rs, Onward(WithInput(v, true, true), rest))
      case NavPanic => r.Died?
      case Refused => r == Failing(rs, matched, rest, BadTarget)
      case To(node) =>
        var w, code := VReset(MovedTo(matched, target)), rs.code(node);
        r == if code.Some? then Settle(rs, Onward(w, rest + code.value)) else Failing(rs, w, rest, NoCode)
  {
    hide TargetOut, TargetPlace, DeadCheck, VReset, WithInput, WithFlag, Failing, Settle, ErrCheck, MovedTo, Target;
    var matched := WithInput(v, false, true);
    MatchedIs(v);
    SameTarget(v, false, true, target);
    var out := TargetOut(v.st, target);
    var w := VReset(MovedTo(matched, target));
    MovedIs(matched, target);
    if out.AtFirstPage? {
      GoSettles(rs, WithInput(v, true, true), rest);
    } else if out.NavPanic? {
      CrashSettles(rs, matched);
    } else if out.Refused? {
      RaiseFails(rs, matched, rest, BadTarget);
    } else if rs.code(out.sym).Some? {
      GoSettles(rs, w, rest + rs.code(out.sym).value);
    } else {
      RaiseFails(rs, w, rest, NoCode);
    }
  }

  lemma MovedIs(v: VmV, target: Bytes)
    requires Sound(v)
    ensures Target(v, target) == MovedTo(v, target) && Sound(VReset(MovedTo(v, target)))
  {
    hide TargetPlace, PReset;
  }

  // ----- symbols -----

  /**
   LOAD: a symbol that some frame has is passed over without a call. Else one call is made; its failure and its flags are those of
   RefreshFlags. Its content goes into the top frame with the size limit, as a `uint16`, or is refused with an error.
   */
  lemma LoadMeans(rs: Resource, v: VmV, l: Line, rest: Bytes)
    requires Idle(v) && WellFormed(l) && l.op == LOAD
    ensures
      var sym, limit := l.strargs[0], FromBytes(l.byteargs.value) % 0x1_0000;
      var r, w := StepOf(rs, v, LineBytes(l) + rest), RefreshState(rs, v, sym);
      if exists i :: 0 <= i < |v.ca.frames| && sym in v.ca.frames[i] then r == Settle(rs, Onward(v, rest))
      else
        match RefreshOut(rs, v, sym)
        case RefreshPanic => r.Died?
        case NotRefreshed(e) => r == Failing(rs, w, rest, e)
        case Content(content) =>
          if AddOutcome(v.ca, sym, content, limit) == Added
          then r == Settle(rs, Onward(w.(ca := CAdd(v.ca, sym, content, limit)), rest))
          else r == Failing(rs, w, rest, CacheRefused)
  {
    hide *;
    LoadRead(l, rest);
    LineRead(rs, v, l, rest);
    IdleSound(v);
    LoadRuns(rs, v, Arguments(l) + rest, l.strargs[0], FromBytes(l.byteargs.value), rest);
  }

  lemma LoadRead(l: Line, rest: Bytes)
    requires WellFormed(l) && l.op == LOAD
    ensures |l.strargs| == 1 && l.byteargs.Some? && l.op != HALT && FromBytes(l.byteargs.value) < 0x1_0000_0000
    ensures ParseSymLen(Arguments(l) + rest) == Ok((l.strargs[0], FromBytes(l.byteargs.value)), rest)
  {
    ReadArguments(l, rest);
    hide Arguments, ParseSymLen, FromBytes;
  }

  lemma LoadRuns(rs: Resource, v: VmV, b: Bytes, sym: Bytes, n: u32, rest: Bytes)
    requires Sound(v) && ParseSymLen(b) == Ok((sym, n), rest)
    ensures
      var limit := n % 0x1_0000;
      var r, w := Settle(rs, ErrCheck(rs, DoOp(rs, LOAD, v, b))), RefreshState(rs, v, sym);
      if exists i :: 0 <= i < |v.ca.frames| && sym in v.ca.frames[i] then r == Settle(rs, Onward(v, rest))
      else
        match RefreshOut(rs, v, sym)
        case RefreshPanic => r.Died?
        case NotRefreshed(e) => r == Failing(rs, w, rest, e)
        case Content(content) =>
          if AddOutcome(v.ca, sym, content, limit) == Added
          then r == Settle(rs, Onward(w.(ca := CAdd(v.ca, sym, content, limit)), rest))
          else r == Failing(rs, w, rest, CacheRefused)
  {
    hide ParseSymLen, RefreshOut, RefreshState, CAdd, Settle, ErrCheck, Failing, AddOutcome, FrameOf, Wrap16;
    var w := RefreshState(rs, v, sym);
    SixteenBits(n);
    Missing(v.ca, sym);
    if CGet(v.ca, sym).Some? {
      GoSettles(rs, v, rest);
    } else {
      match RefreshOut(rs, v, sym)
      case RefreshPanic => CrashSettles(rs, w);
      case NotRefreshed(e) => RaiseFails(rs, w, rest, e);
      case Content(content) =>
        var limit := Wrap16(n);
        NotTwice(v.ca, sym, content, limit);
        if AddOutcome(v.ca, sym, content, limit) == Added {
          GoSettles(rs, w.(ca := CAdd(v.ca, sym, content, limit)), rest);
        } else {
          RaiseFails(rs, w, rest, CacheRefused);
        }
    }
  }

  lemma SixteenBits(n: nat)
    ensures Wrap16(n) == n % 0x1_0000
  {
  }

  lemma Missing(c: CacheV, sym: Bytes)
    ensures CGet(c, sym).Some? <==> exists i :: 0 <= i < |c.frames| && sym in c.frames[i]
  {
  }

  lemma NotTwice(c: CacheV, sym: Bytes, content: Bytes, limit: u16)
    requires |c.frames| >= 1 && CGet(c, sym).None?
    ensures AddOutcome(c, sym, content, limit) != Duplicate
    ensures AddOutcome(c, sym, content, limit) != Added ==> CAdd(c, sym, content, limit) == c
  {
    hide OverLimit, Capacity;
  }

  /** Mapping a symbol puts its value on the page; without a limit it becomes the sink of page and sizer, if there is none yet. */
  lemma Maps(v: VmV, sym: Bytes)
    ensures
      var value, w := CGet(v.ca, sym), Mapped(v, sym);
      && w.st == v.st && w.ca == v.ca && w.sep == v.sep && w.calls == v.calls
      && (MapFault(v, sym).None? <==>
            && value.Some? && sym in v.ca.sizes
            && (v.ca.sizes[sym] == 0 && v.pg.sink.Some? ==> v.pg.sink.value == sym))
      && (MapFault(v, sym).Some? ==> w == v)
      && (MapFault(v, sym).None? ==>
            var size, p := v.ca.sizes[sym], w.pg;
            && p.values == v.pg.values[sym := value.value]
            && p.sink == (if size == 0 then Some(sym) else v.pg.sink)
            && p.menu == v.pg.menu && p.err == v.pg.err && p.extra == v.pg.extra
            && (p.sizer.Some? <==> v.pg.sizer.Some?)
            && (p.sizer.Some? ==>
                  var a, b := v.pg.sizer.value, p.sizer.value;
                  && b.members == a.members[sym := size] && b.sink == (if size == 0 then sym else a.sink)
                  && b.outputSize == a.outputSize && b.crsrs == a.crsrs && b.total == (a.total + size) % 0x1_0000_0000))
  {
    hide CGet;
  }

  /** MAP maps its symbol, or is an error. */
  lemma MapMeans(rs: Resource, v: VmV, l: Line, rest: Bytes)
    requires Idle(v) && WellFormed(l) && l.op == MAP
    ensures
      var sym := l.strargs[0];
      StepOf(rs, v, LineBytes(l) + rest) ==
        if MapFault(v, sym).None? then Settle(rs, Onward(Mapped(v, sym), rest)) else Failing(rs, v, rest, PageRefused)
  {
    hide *;
    SymRead(l, rest);
    LineRead(rs, v, l, rest);
    IdleSound(v);
    MapRuns(rs, v, Arguments(l) + rest, l.strargs[0], rest);
  }

  lemma MapRuns(rs: Resource, v: VmV, b: Bytes, sym: Bytes, rest: Bytes)
    requires Sound(v) && ParseSym(b) == Ok(sym, rest)
    ensures Settle(rs, ErrCheck(rs, DoOp(rs, MAP, v, b))) ==
      if MapFault(v, sym).None? then Settle(rs, Onward(Mapped(v, sym), rest)) else Failing(rs, v, rest, PageRefused)
  {
    hide ParseSym, Mapped, MapFault, Settle, ErrCheck, Failing;
    Maps(v, sym);
    MappedSound(v, sym);
    GoSettles(rs, Mapped(v, sym), rest);
    RaiseFails(rs, v, rest, PageRefused);
  }

  lemma MappedSound(v: VmV, sym: Bytes)
    requires Sound(v)
    ensures Sound(Mapped(v, sym))
  {
    hide CGet;
  }

  /** RELOAD calls, replaces the value where the cache takes the new one, and maps the symbol with the value that is there then. */
  lemma ReloadMeans(rs: Resource, v: VmV, l: Line, rest: Bytes)
    requires Idle(v) && WellFormed(l) && l.op == RELOAD
    ensures
      var sym := l.strargs[0];
      var r, w := StepOf(rs, v, LineBytes(l) + rest), RefreshState(rs, v, sym);
      match RefreshOut(rs, v, sym)
      case RefreshPanic => r.Died?
      case NotRefreshed(e) => r == Failing(rs, w, rest, e)
      case Content(content) =>
        var u := w.(ca := if Updates(v.ca, sym, content) then CUpdate(v.ca, sym, content) else v.ca);
        r == if MapFault(u, sym).None? then Settle(rs, Onward(Mapped(u, sym), rest)) else Failing(rs, u, rest, PageRefused)
  {
    hide *;
    SymRead(l, rest);
    LineRead(rs, v, l, rest);
    IdleSound(v);
    ReloadRuns(rs, v, Arguments(l) + rest, l.strargs[0], rest);
  }

  lemma ReloadRuns(rs: Resource, v: VmV, b: Bytes, sym: Bytes, rest: Bytes)
    requires Sound(v) && ParseSym(b) == Ok(sym, rest)
    ensures
      var r, w := Settle(rs, ErrCheck(rs, DoOp(rs, RELOAD, v, b))), RefreshState(rs, v, sym);
      match RefreshOut(rs, v, sym)
      case RefreshPanic => r.Died?
      case NotRefreshed(e) => r == Failing(rs, w, rest, e)
      case Content(content) =>
        var u := w.(ca := if Updates(v.ca, sym, content) then CUpdate(v.ca, sym, content) else v.ca);
        r == if MapFault(u, sym).None? then Settle(rs, Onward(Mapped(u, sym), rest)) else Failing(rs, u, rest, PageRefused)
  {
    hide ParseSym, RefreshOut, RefreshState, Mapped, MapFault, Settle, ErrCheck, Failing, Updates;
    var w := RefreshState(rs, v, sym);
    match RefreshOut(rs, v, sym)
    case RefreshPanic => CrashSettles(rs, w);
    case NotRefreshed(e) => RaiseFails(rs, w, rest, e);
    case Content(content) =>
      var u := w.(ca := CUpdate(v.ca, sym, content));
      hide CUpdate;
      NotUpdated(v.ca, sym, content);
      Maps(u, sym);
      MappedSound(u, sym);
      GoSettles(rs, Mapped(u, sym), rest);
      RaiseFails(rs, u, rest, PageRefused);
  }

  lemma NotUpdated(c: CacheV, sym: Bytes, content: Bytes)
    ensures !Updates(c, sym, content) ==> CUpdate(c, sym, content) == c
  {
    hide Updates;
  }

  // ----- the others -----

  /** CROAK on another flag value goes on; a flag that does not exist is a panic. (When it fires: Exceptions.CroakEnds.) */
  lemma CroakPasses(rs: Resource, v: VmV, l: Line, rest: Bytes)
    requires Idle(v) && WellFormed(l) && l.op == CROAK
    ensures
      var n, mode := FromBytes(l.byteargs.value), l.numargs[0] > 0;
      var r := StepOf(rs, v, LineBytes(l) + rest);
      && (n >= |v.st.flags| ==> r.Died?)
      && (n < |v.st.flags| && v.st.flags[n] != mode ==> r == Settle(rs, Onward(v, rest)))
      && (n < |v.st.flags| && v.st.flags[n] == mode ==> r == Settle(rs, Onward(VReset(v).(ca := CReset(v.ca)), [])))
  {
    hide *;
    CroakRead(l, rest);
    LineRead(rs, v, l, rest);
    IdleSound(v);
    CroakDone(rs, v, Arguments(l) + rest, FromBytes(l.byteargs.value), l.numargs[0] > 0, rest);
  }

  lemma CroakRead(l: Line, rest: Bytes)
    requires WellFormed(l) && l.op == CROAK
    ensures l.byteargs.Some? && |l.numargs| == 1 && l.op != HALT && FromBytes(l.byteargs.value) < 0x1_0000_0000
    ensures ParseSig(Arguments(l) + rest) == Ok((FromBytes(l.byteargs.value), l.numargs[0] > 0), rest)
  {
    ReadArguments(l, rest);
    hide Arguments, ParseSig, FromBytes;
  }

  lemma CroakDone(rs: Resource, v: VmV, b: Bytes, n: u32, mode: bool, rest: Bytes)
    requires Sound(v) && ParseSig(b) == Ok((n, mode), rest)
    ensures
      var r := Settle(rs, ErrCheck(rs, DoOp(rs, CROAK, v, b)));
      && (n >= |v.st.flags| ==> r.Died?)
      && (n < |v.st.flags| && v.st.flags[n] != mode ==> r == Settle(rs, Onward(v, rest)))
      && (n < |v.st.flags| && v.st.flags[n] == mode ==> r == Settle(rs, Onward(VReset(v).(ca := CReset(v.ca)), [])))
  {
    hide ParseSig, VReset, CReset, DeadCheck;
  }

  /** MSINK makes the menu the sink, and gives it a page if it has none. */
  lemma MSinkMeans(rs: Resource, v: VmV, rest: Bytes)
    requires Idle(v)
    ensures
      var m := v.pg.menu.value;
      var w := v.(pg := v.pg.(menu := Some(m.(sink := true, pageCount := if m.pageCount == 0 then 1 else m.pageCount))));
      StepOf(rs, v, [0, 9] + rest) == Settle(rs, Onward(w, rest))
  {
    var l := Line(MSINK, [], None, []);
    assert LineBytes(l) == [0, 9] && Arguments(l) + rest == rest;
    hide LineBytes, Arguments, StepOf;
    LineRead(rs, v, l, rest);
    IdleSound(v);
    hide Settle, Idle, DeadCheck;
  }

  // ----- arguments that cannot be read -----

  /**
   An instruction whose arguments cannot be read is an error, and a panic where reading them slices out of range; the machine stays as
   it is. (MAP overwrites the error: MapOfNothing.)
   */
  lemma BadArguments(rs: Resource, v: VmV, op: Opcode, b: Bytes)
    requires Sound(v) && op in {CATCH, CROAK, LOAD, RELOAD, MOVE, INCMP, MOUT, MNEXT, MPREV}
    ensures
      var arguments, r := ParseArguments(op, b), Settle(rs, ErrCheck(rs, DoOp(rs, op, v, b)));
      && (arguments.Bad? ==> r == Failing(rs, v, arguments.rest, BadCode))
      && (arguments.Panic? ==> r.Died?)
  {
    hide ParseSym, ParseSymSig, ParseSymLen, ParseSig, ParseTwoSym, RefreshOut, RefreshState, CAdd, CGet, CUpdate, MapFault, Mapped,
      TargetOut, Target, Failing, Settle, ErrCheck, VReset, CReset, DoMatch;
    var arguments := ParseArguments(op, b);
    if arguments.Bad? {
      RaiseFails(rs, v, arguments.rest, BadCode);
    } else if arguments.Panic? {
      CrashSettles(rs, v);
    }
  }

  /** A MAP that cannot be read maps the empty symbol. */
  lemma MapOfNothing(rs: Resource, v: VmV, b: Bytes)
    requires Sound(v) && ParseArguments(MAP, b).Bad?
    ensures
      var rest := ParseArguments(MAP, b).rest;
      Settle(rs, ErrCheck(rs, DoOp(rs, MAP, v, b))) ==
        if MapFault(v, []).None? then Settle(rs, Onward(Mapped(v, []), rest)) else Failing(rs, v, rest, PageRefused)
  {
    hide ParseSym, Mapped, MapFault, Settle, ErrCheck, Failing;
    var rest := ParseArguments(MAP, b).rest;
    Maps(v, []);
    MappedSound(v, []);
    GoSettles(rs, Mapped(v, []), rest);
    RaiseFails(rs, v, rest, PageRefused);
  }

  /** Opcode 0 has no instruction behind it. */
  lemma NoopFails(rs: Resource, v: VmV, rest: Bytes)
    requires Idle(v)
    ensures StepOf(rs, v, [0, 0] + rest) == Failing(rs, v, rest, UnhandledOpcode)
  {
    PreludeIdle(v);
    var b := [0, 0] + rest;
    assert b[2..] == rest;
    IdleSound(v);
    RaiseFails(rs, v, rest, UnhandledOpcode);
    hide Failing, Settle, ErrCheck, Idle, Prelude;
    assert OpSplit(b) == Ok(0, rest);
  }
}
