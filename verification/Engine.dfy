/** The engine around the machine (engine/db.go): resetting a session, and every state a session can reach. */
module Engines {
  import opened Common
  import opened Codec
  import opened States
  import opened Caching
  import opened CacheAccounting
  import opened Resources
  import opened Rendering
  import opened Menus
  import opened Navigation
  import opened Running
  import opened StackSync
  import opened BrowseErrors
  import opened PendingErrors

  // ----- reset -----

  /** The loop of reset: leaves every node, the top node included, popping a cache level for each. */
  ghost function LeaveAll(p: Place): (r: Place)
    requires |p.ca.frames| >= 1
    ensures |r.ca.frames| >= 1 && r.st.path == [] && r.st.flags == p.st.flags && r.st.input == p.st.input
    decreases |p.st.path|
  {
    if p.st.path == [] then p else LeaveAll(Place(SUp(p.st), CPop(p.ca)))
  }

  function ClearFlags(flags: Flags): Flags
    requires |flags| >= 8
  {
    flags[FLAG_TERMINATE := false][FLAG_DIRTY := false][FLAG_LOADFAIL := false]
  }

  /**
   reset: None when there is no node to leave. Restart comes after the stack has been emptied, where it
   is an error that is ignored, so the input and the other engine flags stay.
   */
  ghost function ResetPlace(p: Place, resetRoot: bool): Option<Place>
    requires |p.ca.frames| >= 1 && |p.st.flags| >= 8
  {
    if p.st.path == [] then None
    else
      var left := LeaveAll(p);
      Some(Place(left.st.(flags := ClearFlags(left.st.flags)), if resetRoot then CPop(left.ca) else left.ca))
  }

  class Engine {
    const st: State
    const ca: Cache
    const ResetRoot: bool
    var code: Bytes
    var exit: Bytes
    var exiting: bool

    ghost predicate Valid()
      reads this, ca
    {
      st.Valid() && ca.Valid()
    }

    constructor (st: State, ca: Cache, resetRoot: bool)
      requires st.Valid() && ca.Valid()
      ensures Valid() && this.st == st && this.ca == ca && ResetRoot == resetRoot
      ensures code == [] && exit == [] && !exiting
    {
      this.st, this.ca, ResetRoot := st, ca, resetRoot;
      code, exit, exiting := [], [], false;
    }

    /**
     Keeps the code that remains after a run. With none remaining the session ends; pending output is
     taken from the value loaded last, which is thereby used up.
     */
    method SetCode(b: Bytes) returns (cont: bool)
      requires Valid()
      modifies this, ca
      ensures Valid() && code == b && cont == (b != [])
      ensures var leaving := b == [] && st.Bits()[FLAG_DIRTY];
        && exiting == (leaving || old(exiting))
        && exit == (if leaving then old(ca.LastValue) else old(exit))
        && ca.View() == (if leaving then old(ca.View()).(last := []) else old(ca.View()))
    {
      code := b;
      if |b| == 0 {
        var dirty := st.MatchFlag(FLAG_DIRTY, true);
        if dirty {
          exiting := true;
          exit := ca.Last();
        }
        return false;
      }
      return true;
    }

    method Reset() returns (ok: bool)
      requires Valid()
      modifies st, st.Flags, ca
      ensures Valid()
      ensures ok == ResetPlace(old(PlaceOf(st, ca)), ResetRoot).Some?
      ensures PlaceOf(st, ca) ==
        if ok then ResetPlace(old(PlaceOf(st, ca)), ResetRoot).value else old(PlaceOf(st, ca))
    {
      hide CPop, BitsOf;
      ghost var start := PlaceOf(st, ca);
      var isTop := false;
      while !isTop
        invariant Valid()
        invariant LeaveAll(PlaceOf(st, ca)) == LeaveAll(start)
        invariant start.st.path == [] ==> PlaceOf(st, ca) == start && !isTop
        invariant isTop <==> st.ExecPath == [] && start.st.path != []
        decreases |st.ExecPath|, !isTop
      {
        var top := st.Top();
        if top.None? {
          return false;
        }
        isTop := top.value;
        var up := st.Up();
        ca.Pop();
      }
      if ResetRoot {
        ca.Pop();
      }
      var restarted := st.Restart();
      var changed := st.ResetFlag(FLAG_TERMINATE);
      changed := st.ResetFlag(FLAG_DIRTY);
      changed := st.ResetFlag(FLAG_LOADFAIL);
      return true;
    }
  }

  lemma {:induction false} LeaveAllFrames(p: Place)
    requires |p.ca.frames| >= 1
    ensures LeaveAll(p).ca.frames == FramesLeft(p.ca.frames, |p.st.path|)
    ensures Accounted(p.ca) ==> Accounted(LeaveAll(p).ca)
    decreases |p.st.path|
  {
    hide CPop, Accounted;
    if p.st.path == [] {
      assert p.ca.frames[..|p.ca.frames|] == p.ca.frames;
    } else {
      var q := Place(SUp(p.st), CPop(p.ca));
      if Accounted(p.ca) {
        PopKeepsAccount(p.ca);
      }
      PopFrames(p.ca);
      LeaveAllFrames(q);
    }
  }

  /**
   Resetting a session: the stack is empty and a cache frame has gone for every node, and one more with
   the root reset; the bytes of what is left are counted. Client flags and all engine flags but TERMINATE,
   DIRTY and LOADFAIL keep their values.
   */
  lemma {:induction false} ResetAny(p: Place, resetRoot: bool)
    requires |p.ca.frames| >= 1 && |p.st.flags| >= 8 && p.st.path != [] && Accounted(p.ca)
    ensures var r := ResetPlace(p, resetRoot);
      && r.Some? && r.value.st.path == []
      && r.value.ca.frames == FramesLeft(p.ca.frames, |p.st.path| + if resetRoot then 1 else 0)
      && r.value.ca.use == Wrap32(FramesTotal(r.value.ca.frames))
      && (forall i :: 0 <= i < |p.st.flags| ==>
            r.value.st.flags[i] == (p.st.flags[i] && i !in {FLAG_TERMINATE, FLAG_DIRTY, FLAG_LOADFAIL}))
  {
    hide FramesTotal, FrameTotal, Wrap32, LeaveAll, CPop, OneFrameEach, Reserved;
    LeaveAllFrames(p);
    var left := LeaveAll(p);
    if resetRoot {
      PopKeepsAccount(left.ca);
      PopFrames(left.ca);
    }
  }

  /**
   With a cache level with the stack, one frame is left: the first one as it was, or an empty one with the root
   reset. Once a CROAK has taken the cache off level, the first frame is lost as well.
   */
  lemma {:induction false} ResetSession(p: Place, resetRoot: bool)
    requires 1 <= |p.ca.frames| <= |p.st.path| + 1 && |p.st.flags| >= 8 && p.st.path != [] && Accounted(p.ca)
    ensures var r := ResetPlace(p, resetRoot);
      && r.Some? && r.value.st.path == []
      && r.value.ca.frames ==
           (if !resetRoot && |p.ca.frames| == |p.st.path| + 1 then [p.ca.frames[0]] else [map[]])
      && r.value.ca.use == Wrap32(FrameTotal(r.value.ca.frames[0]))
      && (forall i :: 0 <= i < |p.st.flags| ==>
            r.value.st.flags[i] == (p.st.flags[i] && i !in {FLAG_TERMINATE, FLAG_DIRTY, FLAG_LOADFAIL}))
  {
    hide FramesTotal, FrameTotal, Wrap32, ResetPlace, Accounted;
    ResetAny(p, resetRoot);
    var r := ResetPlace(p, resetRoot).value;
    assert r.ca.frames == [r.ca.frames[0]];
    OneFrameTotal(r.ca.frames[0]);
  }

  // ----- every state of a session -----

  /** `LOAD _first 0`, `HALT`: what the engine runs ahead of the session's own code. */
  const FIRST_NODE: Bytes := [95, 102, 105, 114, 115, 116]
  const FIRST_CODE: Bytes := LineBytes(Line(LOAD, [FIRST_NODE], Some([0]), [])) + [0, HALT]

  /** Its bytes. */
  lemma FirstCodeIs()
    ensures FIRST_CODE == [0, 3, 6, 95, 102, 105, 114, 115, 116, 1, 0, 0, 7]
  {
    assert [FIRST_NODE][1..] == [] && PrefixedAll([]) == [];
    assert PrefixedAll([FIRST_NODE]) == [6] + FIRST_NODE + [];
  }

  /**
   What can happen to a session. Runs are cut off after some number of steps, so that no run is left out. Showing a
   page splits the values, in whatever order the map yields them, once or, after a browse error, twice.
   */
  datatype Event =
    | RunCode(code: Bytes, fuel: nat)
    | Input(input: Bytes)
    | ShowPage(fuel: nat, split: SplitV, again: SplitV)
    | ResetSessionEvent(resetRoot: bool)
    | RunFirst(first: Resource, fuel: nat)

  /** The machine that runs the first function: the session's state and cache, a page of its own. */
  function FirstVm(v: VmV): VmV
    requires Sound(v)
  {
    VmV(SDown(v.st, FIRST_NODE), CPush(v.ca), PageV(map[], None, Some(FreshMenu([])), None, None, []), [], v.calls)
  }

  /** Back from the first function: two flags cleared, one node and one cache level left. */
  ghost function AfterFirst(v: VmV, r: VmV): (s: VmV)
    requires Sound(v) && Sound(r)
    ensures Sound(s)
  {
    var st := r.st.(flags := r.st.flags[FLAG_DIRTY := false][FLAG_TERMINATE := false]);
    v.(st := if st.path == [] then st else SUp(st), ca := CPop(r.ca), calls := r.calls)
  }

  /** The page of the current node, rendered: what Page.Render leaves of the page. */
  function Rendered(rs: Resource, v: VmV, sp: SplitV): (r: VmV)
    requires Sound(v)
    ensures r.st == v.st && r.ca == v.ca
  {
    v.(pg := PageState(v.pg, sp, rs, Where(v.st), if v.st.path == [] then 0 else v.st.idx))
  }

  predicate PageFails(rs: Resource, v: VmV, sp: SplitV) {
    IsBrowseError(PageOut(v.pg, sp, rs, Where(v.st), if v.st.path == [] then 0 else v.st.idx))
  }

  /** The state of a machine whose rendering is done; its page keeps a menu, as Page.Render only replaces what it is given. */
  lemma RenderedIsSound(rs: Resource, v: VmV, sp: SplitV)
    requires Sound(v)
    ensures Sound(Rendered(rs, v, sp)) && Rendered(rs, v, sp).pg.err == v.pg.err
  {
    hide RenderOut, TemplateText, MRenderOut, MRenderState, PackingOf;
  }

  /**
   Vm.Render: nothing unless DIRTY is set, which is cleared; then the page is rendered, and on a browse error
   once more, after a reset and a move to the catch node.
   */
  ghost function PageShown(rs: Resource, v: VmV, fuel: nat, split: SplitV, again: SplitV): (r: VmV)
    requires Sound(v)
    ensures Sound(r)
  {
    if !v.st.flags[FLAG_DIRTY] then v
    else
      var v1 := WithFlag(v, FLAG_DIRTY, false);
      if Where(v1.st) == [] then v1
      else
        RenderedIsSound(rs, v1, split);
        if !PageFails(rs, v1, split) then Rendered(rs, v1, split)
        else
          var v2 := Run(rs, VReset(Rendered(rs, v1, split)), MOVE_CATCH, fuel).v;
          RenderedIsSound(rs, v2, again);
          Rendered(rs, v2, again)
  }

  /**
   Showing a page happens once for each run: with DIRTY clear nothing changes at all; else it is clear afterwards, unless a browse error has
   run the move to the catch node, which sets it again. Neither stack nor cache change but by that run.
   */
  lemma ShownOnce(rs: Resource, v: VmV, fuel: nat, split: SplitV, again: SplitV)
    requires Sound(v)
    ensures
      var r, w := PageShown(rs, v, fuel, split, again), v.(st := v.st.(flags := v.st.flags[4 := false]));
      var page := if v.st.path == [] then 0 else v.st.idx;
      if !v.st.flags[4] then r == v
      else if Where(v.st) == [] then r == w
      else if !IsBrowseError(PageOut(v.pg, split, rs, Where(v.st), page)) then
        r == w.(pg := PageState(v.pg, split, rs, Where(v.st), page))
      else
        var caught := VReset(w.(pg := PageState(v.pg, split, rs, Where(v.st), page)));
        Sound(caught) && r.st == Run(rs, caught, MOVE_CATCH, fuel).v.st && r.ca == Run(rs, caught, MOVE_CATCH, fuel).v.ca
  {
    hide PageOut, PageState, Run, VReset;
    var v1 := WithFlag(v, FLAG_DIRTY, false);
    RenderedIsSound(rs, v1, split);
    ResetKeepsPlace(Rendered(rs, v1, split));
  }

  ghost function After(rs: Resource, v: VmV, e: Event): (r: VmV)
    requires Sound(v)
    ensures Sound(r)
  {
    match e
    case RunCode(code, fuel) => Run(rs, v, code, fuel).v
    case Input(input) => if |input| > 255 then v else v.(st := v.st.(input := Some(input)))
    case ShowPage(fuel, split, again) => PageShown(rs, v, fuel, split, again)
    case ResetSessionEvent(resetRoot) =>
      var p := ResetPlace(Place(v.st, v.ca), resetRoot);
      if p.None? then v else v.(st := p.value.st, ca := p.value.ca)
    case RunFirst(first, fuel) =>
      if DownPanics(v.st, FIRST_NODE) then v.(ca := CPush(v.ca)) else AfterFirst(v, Run(first, FirstVm(v), FIRST_CODE, fuel).v)
  }

  /** Whether a CROAK fires in the course of an event. */
  ghost predicate Croaks(rs: Resource, v: VmV, e: Event)
    requires Sound(v)
  {
    match e
    case RunCode(code, fuel) => RunCroaks(rs, v, code, fuel)
    case Input(_) => false
    case ShowPage(fuel, split, _) =>
      var v1 := WithFlag(v, FLAG_DIRTY, false);
      v.st.flags[FLAG_DIRTY] && Where(v1.st) != [] && PageFails(rs, v1, split) &&
      RunCroaks(rs, VReset(Rendered(rs, v1, split)), MOVE_CATCH, fuel)
    case ResetSessionEvent(_) => false
    case RunFirst(first, fuel) => !DownPanics(v.st, FIRST_NODE) && RunCroaks(first, FirstVm(v), FIRST_CODE, fuel)
  }

  ghost function Session(rs: Resource, v: VmV, events: seq<Event>): (r: VmV)
    requires Sound(v)
    ensures Sound(r)
    decreases |events|
  {
    if events == [] then v else Session(rs, After(rs, v, events[0]), events[1..])
  }

  ghost predicate SessionCroaks(rs: Resource, v: VmV, events: seq<Event>)
    requires Sound(v)
    decreases |events|
  {
    events != [] && (Croaks(rs, v, events[0]) || SessionCroaks(rs, After(rs, v, events[0]), events[1..]))
  }

  lemma {:induction false} LeaveAllSync(p: Place)
    requires 1 <= |p.ca.frames| <= |p.st.path| + 1
    ensures |LeaveAll(p).ca.frames| == 1
    decreases |p.st.path|
  {
    if p.st.path != [] {
      hide CPop;
      LeaveAllSync(Place(SUp(p.st), CPop(p.ca)));
    }
  }

  lemma {:induction false} ShownSync(rs: Resource, v: VmV, fuel: nat, split: SplitV, again: SplitV)
    requires Sound(v)
    ensures var r := PageShown(rs, v, fuel, split, again);
      && (InSync(v) ==> InSync(r))
      && (InSync(v) && Level(v) && !Croaks(rs, v, ShowPage(fuel, split, again)) ==> Level(r))
  {
    hide Run, Rendered, PageFails, RunCroaks, VReset;
    var v1 := WithFlag(v, FLAG_DIRTY, false);
    if v.st.flags[FLAG_DIRTY] && Where(v1.st) != [] && PageFails(rs, v1, split) {
      var w := VReset(Rendered(rs, v1, split));
      RenderedIsSound(rs, v1, split);
      ResetKeepsPlace(Rendered(rs, v1, split));
      RunSync(rs, w, MOVE_CATCH, fuel);
      RenderedIsSound(rs, Run(rs, w, MOVE_CATCH, fuel).v, again);
    }
  }

  lemma ResetKeepsPlace(v: VmV)
    requires Sound(v)
    ensures Sound(VReset(v)) && VReset(v).st == v.st && VReset(v).ca == v.ca
  {
  }

  /**
   The first function on a full stack: the cache has been pushed when entering its node panics, and nothing takes
   that level back.
   */
  predicate Overruns(v: VmV, e: Event)
    requires Sound(v)
  {
    e.RunFirst? && DownPanics(v.st, FIRST_NODE)
  }

  ghost predicate SessionOverruns(rs: Resource, v: VmV, events: seq<Event>)
    requires Sound(v)
    decreases |events|
  {
    events != [] && (Overruns(v, events[0]) || SessionOverruns(rs, After(rs, v, events[0]), events[1..]))
  }

  /** Exactly one event takes a machine out of bounds: the first function on a full stack, with the cache level. */
  lemma EventSync(rs: Resource, v: VmV, e: Event)
    requires Sound(v) && InSync(v)
    ensures InSync(After(rs, v, e)) <==> !(Overruns(v, e) && Level(v))
    ensures Level(v) && !Croaks(rs, v, e) && !Overruns(v, e) ==> Level(After(rs, v, e))
  {
    match e
    case RunCode(code, fuel) => RunSync(rs, v, code, fuel);
    case Input(_) =>
    case ShowPage(fuel, split, again) => ShownSync(rs, v, fuel, split, again);
    case ResetSessionEvent(_) =>
      hide CPop, LeaveAll;
      LeaveAllSync(Place(v.st, v.ca));
    case RunFirst(first, fuel) =>
      hide CPop;
      if !DownPanics(v.st, FIRST_NODE) {
        RunSync(first, FirstVm(v), FIRST_CODE, fuel);
      }
  }

  lemma {:induction false} SessionSync(rs: Resource, v: VmV, events: seq<Event>)
    requires Sound(v) && InSync(v) && !SessionOverruns(rs, v, events)
    ensures InSync(Session(rs, v, events))
    ensures Level(v) && !SessionCroaks(rs, v, events) ==> Level(Session(rs, v, events))
    decreases |events|
  {
    if events != [] {
      EventSync(rs, v, events[0]);
      hide After, Croaks, Overruns;
      SessionSync(rs, After(rs, v, events[0]), events[1..]);
    }
  }

  /**
   From a new session, whatever its events are, the cache has at least one level and never more than one
   above the depth of the stack, unless the first function has been called on a full stack; and exactly one
   above it as long as no CROAK has fired either.
   */
  lemma EverySessionState(rs: Resource, v: VmV, events: seq<Event>)
    requires Sound(v) && v.st.path == [] && v.ca.frames == [map[]]
    ensures !SessionOverruns(rs, v, events) ==> InSync(Session(rs, v, events))
    ensures !SessionOverruns(rs, v, events) && !SessionCroaks(rs, v, events) ==> Level(Session(rs, v, events))
  {
    if !SessionOverruns(rs, v, events) {
      SessionSync(rs, v, events);
    }
  }

  /** And on a full stack with the cache level, that call is one level too many. */
  lemma FirstOnFullStack(rs: Resource, v: VmV, events: seq<Event>, first: Resource, fuel: nat)
    requires Sound(v) && v.st.path == [] && v.ca.frames == [map[]]
    requires !SessionOverruns(rs, v, events) && !SessionCroaks(rs, v, events)
    ensures var w := Session(rs, v, events);
      var after := Session(rs, v, events + [RunFirst(first, fuel)]);
      |w.st.path| > MAX_LEVEL || Where(w.st) == FIRST_NODE ==>
        !InSync(after) && |after.ca.frames| == |after.st.path| + 2
  {
    hide After, Overruns, Croaks;
    EverySessionState(rs, v, events);
    SessionSnoc(rs, v, events, RunFirst(first, fuel));
    var w := Session(rs, v, events);
    if |w.st.path| > MAX_LEVEL || Where(w.st) == FIRST_NODE {
      FirstPushes(rs, w, first, fuel);
    }
  }

  lemma FirstPushes(rs: Resource, v: VmV, first: Resource, fuel: nat)
    requires Sound(v) && (|v.st.path| > MAX_LEVEL || Where(v.st) == FIRST_NODE)
    ensures After(rs, v, RunFirst(first, fuel)) == v.(ca := CPush(v.ca))
  {
  }

  lemma {:induction false} SessionSnoc(rs: Resource, v: VmV, events: seq<Event>, e: Event)
    requires Sound(v)
    ensures Session(rs, v, events + [e]) == After(rs, Session(rs, v, events), e)
    decreases |events|
  {
    hide After;
    if events == [] {
      assert events + [e] == [e] && [e][1..] == [];
    } else {
      assert (events + [e])[0] == events[0] && (events + [e])[1..] == events[1..] + [e];
      SessionSnoc(rs, After(rs, v, events[0]), events[1..], e);
    }
  }

  // ----- messages over a session -----

  lemma {:induction false} EventKeepsError(rs: Resource, v: VmV, e: Event)
    requires Sound(v)
    ensures Carried(rs, v.pg.err, After(rs, v, e).pg.err)
  {
    match e
    case RunCode(code, fuel) => RunKeepsError(rs, v, code, fuel);
    case Input(_) =>
    case ShowPage(fuel, split, again) =>
      hide Run, Rendered, PageFails;
      var v1 := WithFlag(v, FLAG_DIRTY, false);
      RenderedIsSound(rs, v1, split);
      var w := VReset(Rendered(rs, v1, split));
      RunKeepsError(rs, w, MOVE_CATCH, fuel);
      RenderedIsSound(rs, Run(rs, w, MOVE_CATCH, fuel).v, again);
    case ResetSessionEvent(_) =>
    case RunFirst(_, _) =>
  }

  /**
   A message on the page stays for the rest of the session: no run, no page shown and no reset takes it away, only
   a later error replaces it.
   */
  lemma {:induction false} SessionKeepsError(rs: Resource, v: VmV, events: seq<Event>)
    requires Sound(v)
    ensures Carried(rs, v.pg.err, Session(rs, v, events).pg.err)
    decreases |events|
  {
    hide After;
    if events != [] {
      EventKeepsError(rs, v, events[0]);
      SessionKeepsError(rs, After(rs, v, events[0]), events[1..]);
    }
  }
}
