/** What ends a run early or turns it to the catch node: CROAK, failed loads, and the other errors. */
module Exceptions {
  import opened Common
  import opened Codec
  import opened States
  import opened Caching
  import opened Resources
  import opened Rendering
  import opened Navigation
  import opened Running
  import opened StackSync
  import ExternalFlags

  // ----- CROAK -----

  /** The machine after a CROAK that fires: page and menu reset, the cache down to its first frame. */
  ghost function Croaked(v: VmV): (r: VmV)
    requires Sound(v)
    ensures Sound(r) && r.st == v.st && r.ca == CReset(v.ca) && |r.ca.frames| == 1
  {
    VReset(v).(ca := CReset(v.ca))
  }

  /** A CROAK that fires leaves no code, so the step ends as any step without code does. */
  lemma CroakStep(rs: Resource, v: VmV, b: Bytes)
    requires Sound(v) && StepCroaks(v, b)
    ensures StepOf(rs, v, b) == DeadCheck(rs, Croaked(Prelude(v)))
  {
    hide DeadCheck, Prelude, OpSplit, ParseSig, VReset, CReset;
    CroakRuns(rs, Prelude(v), OpSplit(b).rest);
  }

  lemma CroakRuns(rs: Resource, v: VmV, b: Bytes)
    requires Sound(v) && CroakFires(CROAK, v, b)
    ensures DoOp(rs, CROAK, v, b) == Ran(Croaked(v), Go([]))
  {
    hide ParseSig, VReset, CReset;
  }

  lemma PreludePlace(v: VmV)
    requires Sound(v)
    ensures var p := Prelude(v);
      && p.st.path == v.st.path && p.st.input == v.st.input && p.ca == v.ca
      && Where(p.st) == Where(v.st)
      && p.st.flags[FLAG_READIN] == v.st.flags[FLAG_READIN] && p.st.flags[FLAG_LOADFAIL] == v.st.flags[FLAG_LOADFAIL]
      && p.st.flags[FLAG_TERMINATE] == v.st.flags[FLAG_TERMINATE]
  {
  }

  /**
   What a CROAK that fires comes to. The stack stays as it is, and one cache frame is left: the cache is level
   with the stack only if there was no node at all, and the machine is at its top node only if it was there
   before. Then the run terminates; or, while input is being read, it goes on with a move to the catch
   node, or fails where there is no node or the catch node is the current one.
   */
  lemma CroakEnds(rs: Resource, v: VmV, b: Bytes)
    requires Sound(v) && StepCroaks(v, b)
    ensures var s := StepOf(rs, v, b);
      && s.v.st.path == v.st.path && s.v.ca == CReset(v.ca)
      && (Level(s.v) <==> v.st.path == [])
      && (s.v.st.path == v.st.path[..if v.st.path == [] then 0 else 1] <==> |v.st.path| <= 1)
    ensures var c := Croaked(Prelude(v));
      StepOf(rs, v, b) ==
        if !v.st.flags[FLAG_READIN] then Returned(WithFlag(c, FLAG_TERMINATE, true), [])
        else if Where(v.st) == [] || Where(v.st) == CATCH_NODE then Errored(c, [])
        else Onward(Blamed(rs, c), MOVE_CATCH)
  {
    hide StepOf, Prelude, VReset, CReset, OpSplit, CroakFires;
    CroakStep(rs, v, b);
    PreludePlace(v);
  }

  /** `CROAK 8 1` */
  const CROAK_ON_8: Bytes := [0, 2, 1, 8, 1]

  /** So from two nodes down, say, with the first client flag set, CROAK does not get to the top. */
  lemma CroakStaysDown(rs: Resource, v: VmV)
    requires Sound(v) && !v.st.flags[FLAG_TERMINATE] && |v.st.flags| > FLAG_USERSTART && v.st.flags[FLAG_USERSTART]
    requires |v.st.path| == 2
    ensures StepCroaks(v, CROAK_ON_8)
    ensures |StepOf(rs, v, CROAK_ON_8).v.st.path| == 2 && !Level(StepOf(rs, v, CROAK_ON_8).v)
  {
    var b := CROAK_ON_8;
    assert b[2..] == [1, 8, 1] && b[2..][1..2] == [8] && b[2..][2..] == [1];
    assert FromBytes([8]) == 8;
    assert IntSplit(b[2..]) == Ok(8, [1]);
    assert Prelude(v).st.flags[FLAG_USERSTART];
    hide StepOf, Prelude, IntSplit;
    CroakEnds(rs, v, b);
  }

  // ----- failed loads -----

  predicate LoadFailed(v: VmV)
    requires Sound(v)
  {
    v.st.flags[FLAG_LOADFAIL]
  }

  lemma RefreshKeepsFailure(rs: Resource, v: VmV, key: Bytes)
    requires Sound(v) && LoadFailed(v)
    ensures LoadFailed(RefreshState(rs, v, key))
  {
    ExternalFlags.RefreshFlags(rs, v, key);
  }

  lemma OpKeepsFailure(rs: Resource, op: Opcode, v: VmV, b: Bytes)
    requires Sound(v) && LoadFailed(v)
    ensures LoadFailed(DoOp(rs, op, v, b).v)
  {
    hide RefreshState, RefreshOut, Target, TargetOut, ParseSym, ParseSymSig, ParseTwoSym, ParseSig, ParseSymLen, PReset, CAdd,
      CUpdate, CReset, CGet, AddOutcome, MapOut, MapState;
    if op == LOAD && ParseSymLen(b).Ok? {
      RefreshKeepsFailure(rs, v, ParseSymLen(b).value.0);
    } else if op == RELOAD && ParseSym(b).Ok? {
      RefreshKeepsFailure(rs, v, ParseSym(b).value);
    }
  }

  lemma StepKeepsFailure(rs: Resource, v: VmV, b: Bytes)
    requires Sound(v) && LoadFailed(v)
    ensures LoadFailed(StepOf(rs, v, b).v)
  {
    hide DoOp, Prelude, OpSplit;
    PreludePlace(v);
    if OpSplit(b).Ok? && OpSplit(b).value != HALT {
      OpKeepsFailure(rs, OpSplit(b).value, Prelude(v), OpSplit(b).rest);
    }
  }

  /** No run clears LOADFAIL. */
  lemma {:induction false} RunKeepsFailure(rs: Resource, v: VmV, b: Bytes, fuel: nat)
    requires Sound(v) && LoadFailed(v)
    ensures LoadFailed(Run(rs, v, b, fuel).v)
    decreases fuel
  {
    hide StepOf, LoadFailed;
    if fuel > 0 {
      StepKeepsFailure(rs, v, b);
      RunOnce(rs, v, b, fuel);
      var s := StepOf(rs, v, b);
      if s.Onward? {
        RunKeepsFailure(rs, s.v, s.code, fuel - 1);
      }
    }
  }

  // ----- when a step is an error -----

  /** The instruction has used up the code while input is read, at no node or at the catch node. */
  predicate DeadEnd(ran: Ran)
    requires Sound(ran.v)
  {
    && ran.exit == Go([]) && ran.v.st.flags[FLAG_READIN] && !ran.v.st.flags[FLAG_TERMINATE]
    && (Where(ran.v.st) == [] || Where(ran.v.st) == CATCH_NODE)
  }

  /**
   Exactly when a step ends in an error: the opcode cannot be read, or the instruction fails and no load has
   ever failed, or it is a dead end.
   */
  lemma StepErrorsIff(rs: Resource, v: VmV, b: Bytes)
    requires Sound(v)
    ensures var split, p := OpSplit(b), Prelude(v);
      StepOf(rs, v, b).Errored? <==>
        !v.st.flags[FLAG_TERMINATE] &&
        (split.Bad? || (split.value != HALT &&
          var ran := DoOp(rs, split.value, p, split.rest);
          (ran.exit.Raise? && !LoadFailed(ran.v)) || DeadEnd(ran)))
  {
    hide DoOp, Prelude, OpSplit;
  }

  /** Once a load has failed, an instruction that fails leads to the catch node. */
  lemma FailureIsCaught(rs: Resource, v: VmV, b: Bytes)
    requires Sound(v) && LoadFailed(v) && !v.st.flags[FLAG_TERMINATE] && OpSplit(b).Ok? && OpSplit(b).value != HALT
    ensures var ran := DoOp(rs, OpSplit(b).value, Prelude(v), OpSplit(b).rest);
      ran.exit.Raise? ==>
        StepOf(rs, v, b) == Onward(ran.v.(pg := ran.v.pg.(err := Some(rs.message(ran.exit.error)))), MOVE_CATCH)
  {
    hide DoOp, Prelude, OpSplit;
    PreludePlace(v);
    OpKeepsFailure(rs, OpSplit(b).value, Prelude(v), OpSplit(b).rest);
    MoveCatchIsCode();
  }

  /** But not every error does: code without an opcode stays an error. */
  lemma BadCodeIsNotCaught(rs: Resource, v: VmV)
    requires Sound(v) && LoadFailed(v) && !v.st.flags[FLAG_TERMINATE]
    ensures StepOf(rs, v, []).Errored?
  {
    hide Prelude;
  }
}
