/** The navigation stack and the cache levels stay together over every run, and how a run can stop. */
module StackSync {
  import opened Common
  import opened Codec
  import opened States
  import opened Caching
  import opened Resources
  import opened Rendering
  import opened Navigation
  import opened Running

  /** At least one cache level, and never more than one above the depth of the stack. */
  predicate InSync(v: VmV) {
    1 <= |v.ca.frames| <= |v.st.path| + 1
  }

  /** Exactly one cache level above the depth. */
  predicate Level(v: VmV) {
    |v.ca.frames| == |v.st.path| + 1
  }

  lemma {:induction false} RewindSync(p: Place)
    requires |p.ca.frames| >= 1
    ensures |p.ca.frames| <= |p.st.path| + 1 ==> |RewindPlace(p).ca.frames| <= |RewindPlace(p).st.path| + 1
    ensures |p.ca.frames| == |p.st.path| + 1 ==> |RewindPlace(p).ca.frames| == |RewindPlace(p).st.path| + 1
    decreases |p.st.path|
  {
    if |p.st.path| > 1 {
      hide CPop;
      RewindSync(Place(SUp(p.st), CPop(p.ca)));
    }
  }

  lemma TargetSync(v: VmV, target: Bytes)
    requires Sound(v)
    ensures InSync(v) ==> InSync(Target(v, target))
    ensures Level(v) ==> Level(Target(v, target))
  {
    RewindSync(Place(v.st, v.ca));
    hide CPop, RewindPlace, ValidTarget;
  }

  /** Whether the instruction is a CROAK whose signal matches. */
  predicate CroakFires(op: Opcode, v: VmV, b: Bytes) {
    op == CROAK && ParseSig(b).Ok? &&
    var arg := ParseSig(b).value;
    arg.0 < |v.st.flags| && v.st.flags[arg.0] == arg.1
  }

  /** Every instruction, successful or not, keeps the stacks in sync; only CROAK takes them off level. */
  lemma OpSync(rs: Resource, op: Opcode, v: VmV, b: Bytes)
    requires Sound(v)
    ensures InSync(v) ==> InSync(DoOp(rs, op, v, b).v)
    ensures Level(v) && !CroakFires(op, v, b) ==> Level(DoOp(rs, op, v, b).v)
  {
    if op == CATCH || op == MOVE {
      MoveSync(rs, op, v, b);
    } else if op == INCMP {
      InCmpSync(rs, v, b);
    } else {
      hide DoCatch, DoMove, DoInCmp, RefreshState, RefreshOut, ParseSym, ParseSymLen, ParseSig, CAdd, CUpdate, CReset,
        AddOutcome, CGet, MapOut, MapState, PReset;
    }
  }

  lemma MoveSync(rs: Resource, op: Opcode, v: VmV, b: Bytes)
    requires Sound(v) && (op == CATCH || op == MOVE)
    ensures InSync(v) ==> InSync(DoOp(rs, op, v, b).v)
    ensures Level(v) ==> Level(DoOp(rs, op, v, b).v)
  {
    if op == CATCH && ParseSymSig(b).Ok? {
      TargetSync(v, ParseSymSig(b).value.0);
    }
    if op == MOVE && ParseSym(b).Ok? {
      TargetSync(v, ParseSym(b).value);
    }
    hide Target, TargetOut, ParseSym, ParseSymSig, PReset;
  }

  lemma InCmpSync(rs: Resource, v: VmV, b: Bytes)
    requires Sound(v)
    ensures InSync(v) ==> InSync(DoInCmp(rs, v, b).v)
    ensures Level(v) ==> Level(DoInCmp(rs, v, b).v)
  {
    if ParseTwoSym(b).Ok? {
      var arg := ParseTwoSym(b).value;
      var v1 := if v.st.flags[FLAG_INMATCH] then v else WithFlag(v, FLAG_READIN, true);
      var v2 := WithFlag(WithFlag(v1, FLAG_INMATCH, true), FLAG_READIN, false);
      TargetSync(v2, arg.0);
    }
    hide Target, TargetOut, ParseTwoSym, PReset;
  }

  /** Whether a step executes a CROAK that fires. */
  predicate StepCroaks(v: VmV, b: Bytes)
    requires Sound(v)
  {
    !v.st.flags[FLAG_TERMINATE] && OpSplit(b).Ok? && CroakFires(OpSplit(b).value, Prelude(v), OpSplit(b).rest)
  }

  lemma StepSync(rs: Resource, v: VmV, b: Bytes)
    requires Sound(v)
    ensures InSync(v) ==> InSync(StepOf(rs, v, b).v)
    ensures Level(v) && !StepCroaks(v, b) ==> Level(StepOf(rs, v, b).v)
  {
    var v1 := Prelude(v);
    assert v1.st.path == v.st.path && v1.ca == v.ca;
    if OpSplit(b).Ok? && OpSplit(b).value != HALT {
      OpSync(rs, OpSplit(b).value, v1, OpSplit(b).rest);
    }
    hide DoOp, Prelude, OpSplit, CroakFires;
  }

  /** Whether a CROAK fires within the first `fuel` steps of a run. */
  ghost predicate RunCroaks(rs: Resource, v: VmV, b: Bytes, fuel: nat)
    requires Sound(v)
    decreases fuel
  {
    fuel > 0 && (StepCroaks(v, b) ||
      (StepOf(rs, v, b).Onward? && RunCroaks(rs, StepOf(rs, v, b).v, StepOf(rs, v, b).code, fuel - 1)))
  }

  lemma {:induction false} RunSync(rs: Resource, v: VmV, b: Bytes, fuel: nat)
    requires Sound(v)
    ensures InSync(v) ==> InSync(Run(rs, v, b, fuel).v)
    ensures Level(v) && !RunCroaks(rs, v, b, fuel) ==> Level(Run(rs, v, b, fuel).v)
    decreases fuel
  {
    hide StepOf, StepCroaks;
    if fuel > 0 {
      StepSync(rs, v, b);
      RunOnce(rs, v, b, fuel);
      var s := StepOf(rs, v, b);
      hide Run, InSync, Level;
      if s.Onward? {
        RunSync(rs, s.v, s.code, fuel - 1);
      }
    }
  }

  // ----- how a run can stop -----

  /** The run reaches, after `k` steps, a HALT followed by `rest`. */
  ghost predicate HaltsAt(rs: Resource, v: VmV, b: Bytes, k: nat, rest: Bytes)
    requires Sound(v)
  {
    Run(rs, v, b, k).Onward? && Run(rs, v, b, k).code == [0, HALT] + rest
  }

  lemma StepStops(rs: Resource, v: VmV, b: Bytes)
    requires Sound(v) && StepOf(rs, v, b).Returned?
    ensures var s := StepOf(rs, v, b);
      if s.v.st.flags[FLAG_TERMINATE] then s.code == []
      else s.v.st.flags[FLAG_WAIT] && b == [0, HALT] + s.code
    ensures v.st.flags[FLAG_TERMINATE] ==> StepOf(rs, v, b).v == v
  {
    if !v.st.flags[FLAG_TERMINATE] {
      var op := OpSplit(b);
      assert op.Ok?;
      if op.value == HALT {
        assert b == [b[0], b[1]] + b[2..];
      } else {
        hide DoOp, Prelude;
      }
    }
  }

  /**
   Every return without an error either terminates, with no code, or waits for input, with exactly the
   code behind the HALT that the run has come to. A run entered in the terminated state returns at once
   and changes nothing.
   */
  lemma {:induction false} RunStops(rs: Resource, v: VmV, b: Bytes, fuel: nat)
    requires Sound(v)
    ensures var r := Run(rs, v, b, fuel);
      r.Returned? ==>
        if r.v.st.flags[FLAG_TERMINATE] then r.code == []
        else r.v.st.flags[FLAG_WAIT] && exists k :: 0 <= k < fuel && HaltsAt(rs, v, b, k, r.code)
    ensures v.st.flags[FLAG_TERMINATE] && fuel > 0 ==> Run(rs, v, b, fuel) == Returned(v, [])
    decreases fuel
  {
    if fuel > 0 {
      var s := StepOf(rs, v, b);
      if s.Returned? {
        StepStops(rs, v, b);
        assert !s.v.st.flags[FLAG_TERMINATE] ==> HaltsAt(rs, v, b, 0, s.code);
      } else if s.Onward? {
        RunStops(rs, s.v, s.code, fuel - 1);
        var r := Run(rs, s.v, s.code, fuel - 1);
        if r.Returned? && !r.v.st.flags[FLAG_TERMINATE] {
          var k :| 0 <= k < fuel - 1 && HaltsAt(rs, s.v, s.code, k, r.code);
          assert HaltsAt(rs, v, b, k + 1, r.code);
        }
      }
      hide StepOf;
    }
  }
}
