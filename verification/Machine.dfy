/** The virtual machine object (vm/runner.go): each method against its function in Running. */
module Machine {
  import opened Common
  import opened Codec
  import opened States
  import opened Caching
  import opened Menus
  import opened Sizing
  import opened Resources
  import opened Rendering
  import opened Navigation
  import opened Running

  class Vm {
    const st: State
    const rs: Resource
    const ca: Cache
    const pg: Page
    const sizer: Sizer?
    var mn: Menu
    var menuSeparator: Bytes
    var calls: nat

    ghost predicate Valid()
      reads this, ca, pg, mn
    {
      && st.Valid() && ca.Valid()
      && pg.menu == mn && pg.sizer == sizer && pg.cache == ca && pg.resource == rs
      && mn.titles == rs.title
    }

    ghost function View(): VmV
      requires Valid()
      reads this, st, st.Flags, ca, pg, mn, sizer
    {
      VmV(st.View(), ca.View(), pg.View(), menuSeparator, calls)
    }

    constructor (st: State, rs: Resource, ca: Cache, sizer: Sizer?)
      requires st.Valid() && ca.Valid()
      modifies sizer
      ensures Valid() && this.st == st && this.rs == rs && this.ca == ca && this.sizer == sizer
      ensures fresh(pg) && fresh(mn)
      ensures View() == VmV(st.View(), ca.View(),
        PageV(map[], None, Some(FreshMenu([])), if sizer == null then None else Some(sizer.View()), None, []), [], 0)
      ensures sizer != null ==> sizer.View() == old(sizer.View())
    {
      this.st, this.rs, this.ca, this.sizer := st, rs, ca, sizer;
      menuSeparator, calls := [], 0;
      pg := new Page(ca, rs);
      mn := new Menu();
      new;
      pg.WithMenu(mn);
      if sizer != null {
        pg.WithSizer(sizer);
      }
    }

    method WithMenuSeparator(sep: Bytes)
      requires Valid()
      modifies this
      ensures Valid() && mn == old(mn) && View() == old(View()).(sep := sep)
    {
      menuSeparator := sep;
    }

    method Reset()
      requires Valid()
      modifies this, pg, mn, sizer
      ensures Valid() && fresh(mn)
      ensures View() == VReset(old(View()))
    {
      hide BitsOf, PReset, MReset;
      var m := new Menu();
      if menuSeparator != [] {
        m.WithSeparator(menuSeparator);
      }
      pg.Reset();
      mn := m;
      pg.WithMenu(m);
      if sizer != null {
        pg.WithSizer(sizer);
      }
    }

    /** Writes the writeable flags of a list; false when one is out of range, where the source panics. */
    method SetFlags(list: seq<u32>, value: bool) returns (ok: bool)
      requires Valid()
      modifies st.Flags
      ensures Valid()
      ensures ok == WriteFlags(old(st.Bits()), list, value).Some?
      ensures ok ==> View() == old(View()).(st := old(st.View()).(flags := WriteFlags(old(st.Bits()), list, value).value))
    {
      var i := 0;
      while i < |list|
        invariant 0 <= i <= |list| && Valid()
        invariant View() == old(View()).(st := old(st.View()).(flags := st.Bits()))
        invariant WriteFlags(st.Bits(), list[i..], value) == WriteFlags(old(st.Bits()), list, value)
      {
        hide BitsOf;
        assert list[i..][1..] == list[i + 1..];
        var flag := list[i];
        if IsWriteableFlag(flag) {
          if flag >= st.BitSize {
            return false;
          }
          if value {
            var changed := st.SetFlag(flag);
          } else {
            var changed := st.ResetFlag(flag);
          }
        }
        i := i + 1;
      }
      return true;
    }

    method Refresh(key: Bytes) returns (r: Refreshed)
      requires Valid()
      modifies this`calls, st.Flags
      ensures Valid()
      ensures r == RefreshOut(rs, old(View()), key)
      ensures !r.RefreshPanic? ==> View() == RefreshState(rs, old(View()), key)
    {
      hide WriteFlags, BitsOf;
      var input := st.GetInput();
      var answer := rs.fetch(calls, key, input);
      calls := calls + 1;
      match answer {
        case NoFunction => return NotRefreshed(NoFetcher);
        case Failed =>
          var changed := st.SetFlag(FLAG_LOADFAIL);
          return NotRefreshed(FetchFailed(key));
        case Got(content, reset, set_) =>
          var ok := SetFlags(reset, false);
          if !ok {
            return RefreshPanic;
          }
          ok := SetFlags(set_, true);
          if !ok {
            return RefreshPanic;
          }
          return Content(content);
      }
    }

    method RunCatch(b: Bytes) returns (exit: Exit)
      requires Valid()
      modifies this, st, st.Flags, ca, pg, mn, sizer
      ensures Valid() && (mn == old(mn) || fresh(mn))
      ensures exit == DoCatch(rs, old(View()), b).exit
      ensures !exit.Crash? ==> View() == DoCatch(rs, old(View()), b).v
    {
      hide BitsOf, TargetOut, TargetPlace, VReset, ParseSymSig;
      var args := ParseSymSig(b);
      match args {
        case Panic => return Crash;
        case Bad(r) => return Raise(r, BadCode);
        case Ok(arg, r) =>
          if arg.1 >= st.BitSize {
            return Crash;
          }
          var matched := st.MatchFlag(arg.1, arg.2);
          if !matched {
            return Go(r);
          }
          var out := ApplyTarget(arg.0, st, ca);
          if !out.To? {
            return MoveExit(out, r);
          }
          var code := rs.code(out.sym);
          if code.None? {
            return Raise(r, NoCode);
          }
          return Go(code.value);
      }
    }

    method RunCroak(b: Bytes) returns (exit: Exit)
      requires Valid()
      modifies this, st, st.Flags, ca, pg, mn, sizer
      ensures Valid() && (mn == old(mn) || fresh(mn))
      ensures exit == DoCroak(old(View()), b).exit
      ensures !exit.Crash? ==> View() == DoCroak(old(View()), b).v
    {
      hide BitsOf, TargetOut, TargetPlace, VReset, ParseSig, CReset;
      var args := ParseSig(b);
      match args {
        case Panic => return Crash;
        case Bad(r) => return Raise(r, BadCode);
        case Ok(arg, r) =>
          if arg.0 >= st.BitSize {
            return Crash;
          }
          var matched := st.MatchFlag(arg.0, arg.1);
          if !matched {
            return Go(r);
          }
          Reset();
          ca.Reset();
          return Go([]);
      }
    }

    method RunLoad(b: Bytes) returns (exit: Exit)
      requires Valid()
      modifies this, st, st.Flags, ca, pg, mn, sizer
      ensures Valid() && (mn == old(mn) || fresh(mn))
      ensures exit == DoLoad(rs, old(View()), b).exit
      ensures !exit.Crash? ==> View() == DoLoad(rs, old(View()), b).v
    {
      hide BitsOf, TargetOut, TargetPlace, VReset, ParseSymLen, CGet, AddOutcome, CAdd, RefreshOut, RefreshState;
      var args := ParseSymLen(b);
      match args {
        case Panic => return Crash;
        case Bad(r) => return Raise(r, BadCode);
        case Ok(arg, r) =>
          var present := ca.Get(arg.0);
          if present.Some? {
            return Go(r);
          }
          var fetched := Refresh(arg.0);
          match fetched {
            case RefreshPanic => return Crash;
            case NotRefreshed(e) => return Raise(r, e);
            case Content(content) =>
              var out := ca.Add(arg.0, content, Wrap16(arg.1));
              if out == Added || out == Duplicate {
                return Go(r);
              }
              return Raise(r, CacheRefused);
          }
      }
    }

    method RunReload(b: Bytes) returns (exit: Exit)
      requires Valid()
      modifies this, st, st.Flags, ca, pg, mn, sizer
      ensures Valid() && (mn == old(mn) || fresh(mn))
      ensures exit == DoReload(rs, old(View()), b).exit
      ensures !exit.Crash? ==> View() == DoReload(rs, old(View()), b).v
    {
      hide BitsOf, TargetOut, TargetPlace, VReset, ParseSym, CGet, CUpdate, Updates, RefreshOut, RefreshState, MapOut,
        MapState;
      var args := ParseSym(b);
      match args {
        case Panic => return Crash;
        case Bad(r) => return Raise(r, BadCode);
        case Ok(sym, r) =>
          var fetched := Refresh(sym);
          match fetched {
            case RefreshPanic => return Crash;
            case NotRefreshed(e) => return Raise(r, e);
            case Content(content) =>
              var updated := ca.Update(sym, content);
              var fault := pg.Map(sym);
              return if fault.Some? then Raise(r, PageRefused) else Go(r);
          }
      }
    }

    method RunMap(b: Bytes) returns (exit: Exit)
      requires Valid()
      modifies this, st, st.Flags, ca, pg, mn, sizer
      ensures Valid() && (mn == old(mn) || fresh(mn))
      ensures exit == DoMap(old(View()), b).exit
      ensures !exit.Crash? ==> View() == DoMap(old(View()), b).v
    {
      hide BitsOf, TargetOut, TargetPlace, VReset, ParseSym, CGet, MapOut, MapState;
      var args := ParseSym(b);
      match args {
        case Panic => return Crash;
        case Bad(r) =>
          var fault := pg.Map([]);
          return if fault.Some? then Raise(r, PageRefused) else Go(r);
        case Ok(sym, r) =>
          var fault := pg.Map(sym);
          return if fault.Some? then Raise(r, PageRefused) else Go(r);
      }
    }

    method RunMove(b: Bytes) returns (exit: Exit)
      requires Valid()
      modifies this, st, st.Flags, ca, pg, mn, sizer
      ensures Valid() && (mn == old(mn) || fresh(mn))
      ensures exit == DoMove(rs, old(View()), b).exit
      ensures !exit.Crash? ==> View() == DoMove(rs, old(View()), b).v
    {
      hide BitsOf, TargetOut, TargetPlace, VReset, ParseSym;
      var args := ParseSym(b);
      match args {
        case Panic => return Crash;
        case Bad(r) => return Raise(r, BadCode);
        case Ok(sym, r) =>
          var out := ApplyTarget(sym, st, ca);
          if !out.To? {
            return MoveExit(out, r);
          }
          var code := rs.code(out.sym);
          if code.None? {
            return Raise(r, NoCode);
          }
          Reset();
          return Go(r + code.value);
      }
    }

    /** The part of runInCmp after a match. */
    method ApplyMatch(sym: Bytes, rest: Bytes) returns (exit: Exit)
      requires Valid()
      modifies this, st, st.Flags, ca, pg, mn, sizer
      ensures Valid() && (mn == old(mn) || fresh(mn))
      ensures exit == DoMatch(rs, old(View()), sym, rest).exit
      ensures !exit.Crash? ==> View() == DoMatch(rs, old(View()), sym, rest).v
    {
      hide BitsOf, TargetOut, TargetPlace, VReset;
      var changed := st.SetFlag(FLAG_INMATCH);
      changed := st.ResetFlag(FLAG_READIN);
      var out := ApplyTarget(sym, st, ca);
      if out.AtFirstPage? {
        changed := st.SetFlag(FLAG_READIN);
        return Go(rest);
      } else if !out.To? {
        return MoveExit(out, rest);
      }
      Reset();
      var code := rs.code(out.sym);
      if code.None? {
        return Raise(rest, NoCode);
      }
      return Go(rest + code.value);
    }

    method RunInCmp(b: Bytes) returns (exit: Exit)
      requires Valid()
      modifies this, st, st.Flags, ca, pg, mn, sizer
      ensures Valid() && (mn == old(mn) || fresh(mn))
      ensures exit == DoInCmp(rs, old(View()), b).exit
      ensures !exit.Crash? ==> View() == DoInCmp(rs, old(View()), b).v
    {
      hide BitsOf, TargetOut, TargetPlace, VReset, ParseTwoSym, DoMatch;
      var args := ParseTwoSym(b);
      match args {
        case Panic => return Crash;
        case Bad(r) => return Raise(r, BadCode);
        case Ok(arg, r) =>
          var reading := st.GetFlag(FLAG_READIN);
          var have := st.GetFlag(FLAG_INMATCH);
          if have {
            if reading {
              return Go(r);
            }
          } else {
            var changed := st.SetFlag(FLAG_READIN);
          }
          var input := st.GetInput();
          if input.None? {
            return Raise(r, NoInput);
          }
          if !(!have && arg.1 == [42]) {
            if arg.1 != input.value {
              return Go(r);
            }
          }
          exit := ApplyMatch(arg.0, r);
      }
    }

    method RunMSink(b: Bytes) returns (exit: Exit)
      requires Valid()
      modifies this, st, st.Flags, ca, pg, mn, sizer
      ensures Valid() && (mn == old(mn) || fresh(mn))
      ensures exit == DoMSink(old(View()), b).exit
      ensures !exit.Crash? ==> View() == DoMSink(old(View()), b).v
    {
      hide BitsOf;
      mn.WithSink();
      mn.WithPages();
      return Go(b);
    }

    /** The instructions MOUT, MNEXT and MPREV. */
    method RunMenu(op: Opcode, b: Bytes) returns (exit: Exit)
      requires Valid()
      modifies this, st, st.Flags, ca, pg, mn, sizer
      ensures Valid() && (mn == old(mn) || fresh(mn))
      ensures exit == DoMenu(op, old(View()), b).exit
      ensures !exit.Crash? ==> View() == DoMenu(op, old(View()), b).v
    {
      hide BitsOf, ParseTwoSym;
      var args := ParseTwoSym(b);
      match args {
        case Panic => return Crash;
        case Bad(r) => return Raise(r, BadCode);
        case Ok(arg, r) =>
          var cfg := mn.browse;
          if op == MOUT {
            mn.Put(arg.1, arg.0);
          } else if op == MNEXT {
            mn.WithBrowseConfig(cfg.(NextAvailable := true, NextSelector := arg.1, NextTitle := arg.0));
          } else {
            mn.WithBrowseConfig(cfg.(PreviousAvailable := true, PreviousSelector := arg.1, PreviousTitle := arg.0));
          }
          return Go(r);
      }
    }

    /** One instruction other than HALT. */
    method RunOp(op: Opcode, b: Bytes) returns (exit: Exit)
      requires Valid()
      modifies this, st, st.Flags, ca, pg, mn, sizer
      ensures Valid() && (mn == old(mn) || fresh(mn))
      ensures exit == DoOp(rs, op, old(View()), b).exit
      ensures !exit.Crash? ==> View() == DoOp(rs, op, old(View()), b).v
    {
      hide DoCatch, DoCroak, DoLoad, DoReload, DoMap, DoMove, DoInCmp, DoMSink, DoMenu, BitsOf;
      if op == CATCH {
        exit := RunCatch(b);
      } else if op == CROAK {
        exit := RunCroak(b);
      } else if op == LOAD {
        exit := RunLoad(b);
      } else if op == RELOAD {
        exit := RunReload(b);
      } else if op == MAP {
        exit := RunMap(b);
      } else if op == MOVE {
        exit := RunMove(b);
      } else if op == INCMP {
        exit := RunInCmp(b);
      } else if op == MSINK {
        exit := RunMSink(b);
      } else if op == MOUT || op == MNEXT || op == MPREV {
        exit := RunMenu(op, b);
      } else {
        exit := Raise(b, UnhandledOpcode);
      }
    }

    /** The flag changes at the head of the run loop. */
    method BeginInstruction()
      requires Valid()
      modifies this, st.Flags, pg, mn, sizer
      ensures Valid() && mn == old(mn)
      ensures View() == Prelude(old(View()))
    {
      hide BitsOf;
      var change := st.ResetFlag(FLAG_LANG);
      var waitChange := st.ResetFlag(FLAG_WAIT);
      if waitChange {
        change := st.ResetFlag(FLAG_INMATCH);
        pg.Reset();
        mn.Reset();
      }
      change := st.SetFlag(FLAG_DIRTY);
    }

    /** runErrCheck: an error goes to the client unless a load has failed. */
    method RunErrCheck(exit: Exit) returns (code: Bytes, failed: bool)
      requires Valid() && !exit.Crash?
      modifies pg
      ensures Valid()
      ensures var s := ErrCheck(rs, Ran(old(View()), exit));
        failed == s.Errored? && !s.Died? && !s.Returned? && View() == s.v && code == s.code
    {
      hide BitsOf;
      match exit {
        case Go(c) => return c, false;
        case Raise(c, e) =>
          pg.WithError(rs.message(e));
          var loadFailed := st.MatchFlag(FLAG_LOADFAIL, true);
          if !loadFailed {
            return c, true;
          }
          return MOVE_CATCH, false;
      }
    }

    /** runDeadCheck on empty code: the code to go on with, empty on termination, or an error. */
    method RunDeadCheck() returns (code: Bytes, failed: bool)
      requires Valid()
      modifies st.Flags, pg
      ensures Valid()
      ensures var s := DeadCheck(rs, old(View()));
        && View() == s.v && failed == s.Errored?
        && !s.Died? && (s.Returned? <==> !failed && code == []) && code == s.code
    {
      hide BitsOf;
      MoveCatchIsCode();
      var reading := st.MatchFlag(FLAG_READIN, true);
      if !reading {
        var change := st.SetFlag(FLAG_TERMINATE);
        return [], false;
      }
      var terminating := st.MatchFlag(FLAG_TERMINATE, true);
      if terminating {
        return [], false;
      }
      var location, idx := st.Location();
      if location == [] || location == CATCH_NODE {
        return [], true;
      }
      var input := st.GetInput();
      var text := if input.Some? then input.value else NO_INPUT;
      pg.WithError(rs.message(InvalidInput(text)));
      return MOVE_CATCH, false;
    }

    /** One turn of the run loop. */
    method ExecuteStep(code: Bytes) returns (b: Bytes, end: Ending)
      requires Valid()
      modifies this, st, st.Flags, ca, pg, mn, sizer
      ensures Valid() && (mn == old(mn) || fresh(mn))
      ensures end == EndingOf(StepOf(rs, old(View()), code))
      ensures end != Dead ==> View() == StepOf(rs, old(View()), code).v && b == StepOf(rs, old(View()), code).code
    {
      hide DoOp, Prelude, OpSplit, ErrCheck, DeadCheck, BitsOf;
      b := code;
      var terminate := st.MatchFlag(FLAG_TERMINATE, true);
      if terminate {
        return [], Success;
      }
      BeginInstruction();
      var split := OpSplit(b);
      if !split.Ok? {
        return b, Failure;
      }
      if split.value == HALT {
        var change := st.SetFlag(FLAG_WAIT);
        return split.rest, Success;
      }
      ghost var v1 := View();
      var exit := RunOp(split.value, split.rest);
      if exit.Crash? {
        CrashDies(rs, DoOp(rs, split.value, v1, split.rest));
        return b, Dead;
      }
      var failed;
      b, failed := RunErrCheck(exit);
      if failed {
        return b, Failure;
      }
      if |b| == 0 {
        b, failed := RunDeadCheck();
        if failed {
          return b, Failure;
        }
        if |b| == 0 {
          return [], Success;
        }
      }
      return b, Unfinished;
    }

    /**
     The run loop, for at most `fuel` instructions. `Unfinished` reports that the run has not returned by
     then; a run need not return at all.
     */
    method Execute(code: Bytes, fuel: nat) returns (b: Bytes, end: Ending)
      requires Valid()
      modifies this, st, st.Flags, ca, pg, mn, sizer
      ensures Valid() && (mn == old(mn) || fresh(mn))
      ensures end == EndingOf(Run(rs, old(View()), code, fuel))
      ensures end != Dead ==> View() == Run(rs, old(View()), code, fuel).v && b == Run(rs, old(View()), code, fuel).code
    {
      hide StepOf, BitsOf;
      b := code;
      end := Unfinished;
      var left: nat := fuel;
      while left > 0
        invariant Valid() && (mn == old(mn) || fresh(mn))
        invariant Run(rs, View(), b, left) == Run(rs, old(View()), code, fuel)
        decreases left
      {
        b, end := ExecuteStep(b);
        if end != Unfinished {
          return;
        }
        left := left - 1;
      }
      return b, Unfinished;
    }

    /** The branch of Render for a browse error: reset, and run a move to the catch node. */
    method CatchBrowse(fuel: nat) returns (end: Ending)
      requires Valid()
      modifies this, st, st.Flags, ca, pg, mn, sizer
      ensures Valid() && (mn == old(mn) || fresh(mn))
      ensures end == EndingOf(Run(rs, VReset(old(View())), MOVE_CATCH, fuel))
      ensures end != Dead ==> View() == Run(rs, VReset(old(View())), MOVE_CATCH, fuel).v
    {
      hide Running.Run, VReset, BitsOf;
      Reset();
      var b;
      b, end := Execute(MOVE_CATCH, fuel);
    }
  }

  datatype Ending = Success | Failure | Dead | Unfinished

  function EndingOf(s: Step): Ending {
    match s
    case Onward(_, _) => Unfinished
    case Returned(_, _) => Success
    case Errored(_, _) => Failure
    case Died(_) => Dead
  }

  lemma CrashDies(rs: Resource, ran: Ran)
    requires Sound(ran.v) && ran.exit.Crash?
    ensures ErrCheck(rs, ran).Died? && Settle(rs, ErrCheck(rs, ran)).Died?
  {
  }
}
