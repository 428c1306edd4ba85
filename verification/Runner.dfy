/** What the virtual machine does (vm/runner.go), as functions on values: one instruction, one step, one run. */
module Running {
  import opened Common
  import opened Codec
  import opened States
  import opened Caching
  import opened Menus
  import opened Resources
  import opened Rendering
  import opened Navigation

  /**
   The machine: state, cache, page (with its menu), the menu separator for new menus and the number of
   fetches made, which stands for the state of the outside world.
   */
  datatype VmV = VmV(st: StateV, ca: CacheV, pg: PageV, sep: Bytes, calls: nat)

  predicate Sound(v: VmV) {
    |v.st.flags| >= 8 && |v.ca.frames| >= 1 && v.pg.menu.Some?
  }

  /** How an instruction ends: with code to go on with, with an error, or in a panic. */
  datatype Exit = Go(code: Bytes) | Raise(code: Bytes, error: VmError) | Crash

  datatype Ran = Ran(v: VmV, exit: Exit)

  function WithFlag(v: VmV, flag: nat, value: bool): VmV
    requires flag < |v.st.flags|
  {
    v.(st := v.st.(flags := v.st.flags[flag := value]))
  }

  function WithMenu(v: VmV, m: MenuV): VmV {
    v.(pg := v.pg.(menu := Some(m)))
  }

  function FreshMenu(sep: Bytes): MenuV {
    NEW_MENU.(sep := if sep == [] then NEW_MENU.sep else sep)
  }

  /** Vm.Reset: a new menu on a reset page. */
  function VReset(v: VmV): VmV {
    v.(pg := PReset(v.pg).(menu := Some(FreshMenu(v.sep))))
  }

  /** `MOVE _catch` */
  const MOVE_CATCH: Bytes := LineBytes(Line(MOVE, [CATCH_NODE], None, []))

  // ----- external code -----

  /** Writes the writeable flags of a list; None when one is out of range, which panics. */
  function WriteFlags(flags: Flags, list: seq<u32>, value: bool): (r: Option<Flags>)
    ensures r.Some? ==> |r.value| == |flags|
    decreases |list|
  {
    if list == [] then Some(flags)
    else if !IsWriteableFlag(list[0]) then WriteFlags(flags, list[1..], value)
    else if list[0] >= |flags| then None
    else WriteFlags(flags[list[0] as int := value], list[1..], value)
  }

  /** The answer of refresh: content, an error, or a panic. */
  datatype Refreshed = Content(content: Bytes) | NotRefreshed(error: VmError) | RefreshPanic

  function RefreshOut(rs: Resource, v: VmV, key: Bytes): Refreshed {
    match rs.fetch(v.calls, key, v.st.input)
    case NoFunction => NotRefreshed(NoFetcher)
    case Failed => NotRefreshed(FetchFailed(key))
    case Got(content, reset, set_) =>
      var cleared := WriteFlags(v.st.flags, reset, false);
      if cleared.None? || WriteFlags(cleared.value, set_, true).None? then RefreshPanic else Content(content)
  }

  function RefreshState(rs: Resource, v: VmV, key: Bytes): (r: VmV)
    requires Sound(v)
    ensures Sound(r) && r.st.(flags := v.st.flags) == v.st && |r.st.flags| == |v.st.flags|
    ensures r.ca == v.ca && r.pg == v.pg && r.sep == v.sep
  {
    var v' := v.(calls := v.calls + 1);
    match rs.fetch(v.calls, key, v.st.input)
    case NoFunction => v'
    case Failed => WithFlag(v', FLAG_LOADFAIL, true)
    case Got(content, reset, set_) =>
      var cleared := WriteFlags(v.st.flags, reset, false);
      if cleared.None? then v'
      else
        var written := WriteFlags(cleared.value, set_, true);
        if written.None? then v' else v'.(st := v'.st.(flags := written.value))
  }

  // ----- instructions -----

  ghost function Target(v: VmV, target: Bytes): (r: VmV)
    requires Sound(v)
    ensures Sound(r) && r.st.flags == v.st.flags && r.st.input == v.st.input && r.pg == v.pg && r.sep == v.sep
  {
    var p := TargetPlace(Place(v.st, v.ca), target);
    v.(st := p.st, ca := p.ca)
  }

  /** A failed move, as an exit; the move's own effect, if any, stays. */
  function MoveExit(out: Nav, code: Bytes): Exit
    requires !out.To?
  {
    if out.NavPanic? then Crash else Raise(code, BadTarget)
  }

  ghost function DoCatch(rs: Resource, v: VmV, b: Bytes): (r: Ran)
    requires Sound(v)
    ensures Sound(r.v)
  {
    match ParseSymSig(b)
    case Panic => Ran(v, Crash)
    case Bad(r) => Ran(v, Raise(r, BadCode))
    case Ok(arg, r) =>
      if arg.1 >= |v.st.flags| then Ran(v, Crash)
      else if v.st.flags[arg.1] != arg.2 then Ran(v, Go(r))
      else
        var out := TargetOut(v.st, arg.0);
        if !out.To? then Ran(v, MoveExit(out, r))
        else
          var code := rs.code(out.sym);
          Ran(Target(v, arg.0), if code.None? then Raise(r, NoCode) else Go(code.value))
  }

  ghost function DoCroak(v: VmV, b: Bytes): (r: Ran)
    ensures Sound(v) ==> Sound(r.v)
  {
    match ParseSig(b)
    case Panic => Ran(v, Crash)
    case Bad(r) => Ran(v, Raise(r, BadCode))
    case Ok(arg, r) =>
      if arg.0 >= |v.st.flags| then Ran(v, Crash)
      else if v.st.flags[arg.0] != arg.1 then Ran(v, Go(r))
      else Ran(VReset(v).(ca := CReset(v.ca)), Go([]))
  }

  function DoLoad(rs: Resource, v: VmV, b: Bytes): (r: Ran)
    requires Sound(v)
    ensures Sound(r.v)
  {
    match ParseSymLen(b)
    case Panic => Ran(v, Crash)
    case Bad(r) => Ran(v, Raise(r, BadCode))
    case Ok(arg, r) =>
      if CGet(v.ca, arg.0).Some? then Ran(v, Go(r))
      else
        var v' := RefreshState(rs, v, arg.0);
        match RefreshOut(rs, v, arg.0)
        case RefreshPanic => Ran(v', Crash)
        case NotRefreshed(e) => Ran(v', Raise(r, e))
        case Content(content) =>
          var limit := Wrap16(arg.1);
          var out := AddOutcome(v'.ca, arg.0, content, limit);
          Ran(v'.(ca := CAdd(v'.ca, arg.0, content, limit)),
              if out == Added || out == Duplicate then Go(r) else Raise(r, CacheRefused))
  }

  /** The symbol's value and reserved size, as Page.Map reads them. */
  function MapFault(v: VmV, sym: Bytes): Option<Fault> {
    MapOut(v.pg, CGet(v.ca, sym), if sym in v.ca.sizes then Some(v.ca.sizes[sym]) else None, sym)
  }

  function Mapped(v: VmV, sym: Bytes): VmV {
    v.(pg := MapState(v.pg, CGet(v.ca, sym), if sym in v.ca.sizes then Some(v.ca.sizes[sym]) else None, sym))
  }

  /** RELOAD ignores whether the cache takes the new value, and maps the symbol. */
  function DoReload(rs: Resource, v: VmV, b: Bytes): (r: Ran)
    requires Sound(v)
    ensures Sound(r.v)
  {
    match ParseSym(b)
    case Panic => Ran(v, Crash)
    case Bad(r) => Ran(v, Raise(r, BadCode))
    case Ok(sym, r) =>
      var v' := RefreshState(rs, v, sym);
      match RefreshOut(rs, v, sym)
      case RefreshPanic => Ran(v', Crash)
      case NotRefreshed(e) => Ran(v', Raise(r, e))
      case Content(content) =>
        var v'' := v'.(ca := CUpdate(v'.ca, sym, content));
        Ran(Mapped(v'', sym), if MapFault(v'', sym).Some? then Raise(r, PageRefused) else Go(r))
  }

  /** MAP overwrites a parse error with the outcome of mapping the empty symbol. */
  function DoMap(v: VmV, b: Bytes): (r: Ran)
    ensures Sound(v) ==> Sound(r.v)
  {
    match ParseSym(b)
    case Panic => Ran(v, Crash)
    case Bad(r) => Ran(Mapped(v, []), if MapFault(v, []).Some? then Raise(r, PageRefused) else Go(r))
    case Ok(sym, r) => Ran(Mapped(v, sym), if MapFault(v, sym).Some? then Raise(r, PageRefused) else Go(r))
  }

  ghost function DoMove(rs: Resource, v: VmV, b: Bytes): (r: Ran)
    requires Sound(v)
    ensures Sound(r.v)
  {
    match ParseSym(b)
    case Panic => Ran(v, Crash)
    case Bad(r) => Ran(v, Raise(r, BadCode))
    case Ok(sym, r) =>
      var out := TargetOut(v.st, sym);
      if !out.To? then Ran(v, MoveExit(out, r))
      else
        var code := rs.code(out.sym);
        if code.None? then Ran(Target(v, sym), Raise(r, NoCode))
        else Ran(VReset(Target(v, sym)), Go(r + code.value))
  }

  /** The move of a matching INCMP. */
  ghost function DoMatch(rs: Resource, v: VmV, sym: Bytes, rest: Bytes): (r: Ran)
    requires Sound(v)
    ensures Sound(r.v)
  {
    var v1 := WithFlag(WithFlag(v, FLAG_INMATCH, true), FLAG_READIN, false);
    var out := TargetOut(v1.st, sym);
    if out.AtFirstPage? then Ran(WithFlag(v1, FLAG_READIN, true), Go(rest))
    else if !out.To? then Ran(v1, MoveExit(out, rest))
    else
      var code := rs.code(out.sym);
      Ran(VReset(Target(v1, sym)), if code.None? then Raise(rest, NoCode) else Go(rest + code.value))
  }

  /** Whether an INCMP with selector `sel` matches the input. */
  predicate Matches(v: VmV, sel: Bytes)
    requires Sound(v) && v.st.input.Some?
  {
    (!v.st.flags[FLAG_INMATCH] && sel == [42]) || sel == v.st.input.value
  }

  ghost function DoInCmp(rs: Resource, v: VmV, b: Bytes): (r: Ran)
    requires Sound(v)
    ensures Sound(r.v)
  {
    match ParseTwoSym(b)
    case Panic => Ran(v, Crash)
    case Bad(r) => Ran(v, Raise(r, BadCode))
    case Ok(arg, r) =>
      var reading, have := v.st.flags[FLAG_READIN], v.st.flags[FLAG_INMATCH];
      if have && reading then Ran(v, Go(r))
      else
        var v1 := if have then v else WithFlag(v, FLAG_READIN, true);
        if v1.st.input.None? then Ran(v1, Raise(r, NoInput))
        else if !Matches(v1, arg.1) then Ran(v1, Go(r))
        else DoMatch(rs, v1, arg.0, r)
  }

  function DoMSink(v: VmV, b: Bytes): (r: Ran)
    requires Sound(v)
    ensures Sound(r.v)
  {
    var m := v.pg.menu.value;
    Ran(WithMenu(v, m.(sink := true, pageCount := if m.pageCount == 0 then 1 else m.pageCount)), Go(b))
  }

  /** MOUT, MNEXT and MPREV: a title and a selector for the menu. */
  function DoMenu(op: Opcode, v: VmV, b: Bytes): (r: Ran)
    requires Sound(v)
    ensures Sound(r.v)
  {
    match ParseTwoSym(b)
    case Panic => Ran(v, Crash)
    case Bad(r) => Ran(v, Raise(r, BadCode))
    case Ok(arg, r) =>
      var m := v.pg.menu.value;
      var m' :=
        if op == MOUT then m.(items := m.items + [(arg.1, arg.0)])
        else if op == MNEXT then
          m.(browse := m.browse.(NextAvailable := true, NextSelector := arg.1, NextTitle := arg.0))
        else m.(browse := m.browse.(PreviousAvailable := true, PreviousSelector := arg.1, PreviousTitle := arg.0));
      Ran(WithMenu(v, m'), Go(r))
  }

  ghost function DoOp(rs: Resource, op: Opcode, v: VmV, b: Bytes): (r: Ran)
    requires Sound(v)
    ensures Sound(r.v)
  {
    if op == CATCH then DoCatch(rs, v, b)
    else if op == CROAK then DoCroak(v, b)
    else if op == LOAD then DoLoad(rs, v, b)
    else if op == RELOAD then DoReload(rs, v, b)
    else if op == MAP then DoMap(v, b)
    else if op == MOVE then DoMove(rs, v, b)
    else if op == INCMP then DoInCmp(rs, v, b)
    else if op == MSINK then DoMSink(v, b)
    else if op == MOUT || op == MNEXT || op == MPREV then DoMenu(op, v, b)
    else Ran(v, Raise(b, UnhandledOpcode))
  }

  // ----- the run -----

  /** What happens before each instruction: a pending WAIT is cleared, and with it match, page and menu. */
  function Prelude(v: VmV): (r: VmV)
    requires Sound(v)
    ensures Sound(r)
  {
    var v1 := WithFlag(v, FLAG_LANG, false);
    var v2 :=
      if v.st.flags[FLAG_WAIT]
      then WithFlag(WithFlag(v1, FLAG_WAIT, false), FLAG_INMATCH, false).(pg := PReset(v.pg))
      else v1;
    WithFlag(v2, FLAG_DIRTY, true)
  }

  /** A step of the run: goes on, returns without an error, returns an error, or panics. */
  datatype Step = Onward(v: VmV, code: Bytes) | Returned(v: VmV, code: Bytes) | Errored(v: VmV, code: Bytes) | Died(v: VmV)

  /** The error of an instruction reaches the client unless a load has failed: then it leads to the catch node. */
  function ErrCheck(rs: Resource, ran: Ran): (r: Step)
    requires Sound(ran.v)
    ensures Sound(r.v)
  {
    match ran.exit
    case Crash => Died(ran.v)
    case Go(code) => Onward(ran.v, code)
    case Raise(code, e) =>
      var v := ran.v.(pg := ran.v.pg.(err := Some(rs.message(e))));
      if v.st.flags[FLAG_LOADFAIL] then Onward(v, MOVE_CATCH) else Errored(v, code)
  }

  const NO_INPUT: Bytes := [40, 110, 111, 32, 105, 110, 112, 117, 116, 41]

  /** The machine with the complaint about its input on the page. */
  function Blamed(rs: Resource, v: VmV): (r: VmV)
    requires Sound(v)
    ensures Sound(r)
    ensures r.st == v.st && r.ca == v.ca
  {
    var input := if v.st.input.Some? then v.st.input.value else NO_INPUT;
    v.(pg := v.pg.(err := Some(rs.message(InvalidInput(input)))))
  }

  /** What happens when no code remains: termination, or a move to the catch node for unmatched input. */
  function DeadCheck(rs: Resource, v: VmV): (r: Step)
    requires Sound(v)
    ensures Sound(r.v)
  {
    if !v.st.flags[FLAG_READIN] then Returned(WithFlag(v, FLAG_TERMINATE, true), [])
    else if v.st.flags[FLAG_TERMINATE] then Returned(v, [])
    else if Where(v.st) == [] || Where(v.st) == CATCH_NODE then Errored(v, [])
    else Onward(Blamed(rs, v), MOVE_CATCH)
  }

  function Settle(rs: Resource, s: Step): (r: Step)
    requires Sound(s.v)
    ensures Sound(r.v)
  {
    if s.Onward? && s.code == [] then DeadCheck(rs, s.v) else s
  }

  ghost function StepOf(rs: Resource, v: VmV, b: Bytes): (r: Step)
    requires Sound(v)
    ensures Sound(r.v)
  {
    if v.st.flags[FLAG_TERMINATE] then Returned(v, [])
    else
      var v1 := Prelude(v);
      match OpSplit(b)
      case Panic => Died(v1)
      case Bad(_) => Errored(v1, b)
      case Ok(op, bb) =>
        if op == HALT then Returned(WithFlag(v1, FLAG_WAIT, true), bb)
        else
          var s := ErrCheck(rs, DoOp(rs, op, v1, bb));
          Settle(rs, s)
  }

  /** `fuel` steps of a run; Onward when the run has not returned by then. */
  ghost function Run(rs: Resource, v: VmV, b: Bytes, fuel: nat): (r: Step)
    requires Sound(v)
    ensures Sound(r.v)
    decreases fuel
  {
    if fuel == 0 then Onward(v, b)
    else
      match StepOf(rs, v, b)
      case Onward(v', b') => Run(rs, v', b', fuel - 1)
      case s => s
  }

  lemma MoveCatchIsCode()
    ensures MOVE_CATCH != []
  {
  }

  lemma RunOnce(rs: Resource, v: VmV, b: Bytes, n: nat)
    requires Sound(v) && n > 0
    ensures var s := StepOf(rs, v, b);
      Run(rs, v, b, n) == if s.Onward? then Run(rs, s.v, s.code, n - 1) else s
  {
    hide StepOf;
  }

  lemma OneStep(rs: Resource, v: VmV, b: Bytes)
    requires Sound(v)
    ensures Run(rs, v, b, 1) == StepOf(rs, v, b)
  {
    RunOnce(rs, v, b, 1);
    hide StepOf;
  }
}
