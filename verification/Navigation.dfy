/** Navigation targets (vm/input.go): how a target moves the state and the cache together. */
module Navigation {
  import opened Common
  import opened States
  import opened Caching

  const UP: Bytes := [95]
  const NEXT: Bytes := [62]
  const PREVIOUS: Bytes := [60]
  const TOP: Bytes := [94]
  const SAME: Bytes := [46]

  /** The node `_catch` that errors and unmatched input are routed to. */
  const CATCH_NODE: Bytes := [95, 99, 97, 116, 99, 104]

  predicate Alphanumeric(b: byte) {
    48 <= b <= 57 || 65 <= b <= 90 || 97 <= b <= 122
  }

  /** `^[a-zA-Z0-9][a-zA-Z0-9_]+$`, or the catch node. */
  predicate ValidSym(s: Bytes) {
    s == CATCH_NODE ||
    (|s| >= 2 && Alphanumeric(s[0]) && forall i :: 1 <= i < |s| ==> Alphanumeric(s[i]) || s[i] == 95)
  }

  /** `^[><_^.]$` */
  predicate ValidControl(s: Bytes) {
    s == UP || s == NEXT || s == PREVIOUS || s == TOP || s == SAME
  }

  predicate ValidTarget(s: Bytes) {
    s != [] && (ValidSym(s) || ValidControl(s))
  }

  /** How applying a target ends: at a node, with one of two kinds of error, or in a panic. */
  datatype Nav = To(sym: Bytes) | AtFirstPage | Refused | NavPanic

  /** State and cache together. */
  datatype Place = Place(st: StateV, ca: CacheV)

  function TargetOut(st: StateV, target: Bytes): Nav {
    if !ValidTarget(target) then Refused
    else if target == UP then if st.path == [] then Refused else To(Where(SUp(st)))
    else if target == NEXT then if st.path == [] then Refused else To(Where(st))
    else if target == PREVIOUS then
      if st.path == [] then Refused else if st.idx == 0 then AtFirstPage else To(Where(st))
    else if target == TOP then To(if st.path == [] then [] else st.path[0])
    else if target == SAME then To(Where(st))
    else if DownPanics(st, target) then NavPanic
    else To(target)
  }

  /** Back to the top node, popping a cache level for every node left. */
  ghost function RewindPlace(p: Place): (r: Place)
    requires |p.ca.frames| >= 1
    ensures |r.ca.frames| >= 1 && |r.st.path| <= 1 && r.st.flags == p.st.flags && r.st.input == p.st.input
    ensures p.st.path != [] ==> r.st.path == p.st.path[..1]
    ensures p.st.path == [] ==> r == p
    decreases |p.st.path|
  {
    if |p.st.path| <= 1 then p
    else RewindPlace(Place(SUp(p.st), CPop(p.ca)))
  }

  ghost function TargetPlace(p: Place, target: Bytes): (r: Place)
    requires |p.ca.frames| >= 1
    ensures !TargetOut(p.st, target).To? ==> r == p
    ensures |r.ca.frames| >= 1 && r.st.flags == p.st.flags && r.st.input == p.st.input
  {
    if !TargetOut(p.st, target).To? then p
    else if target == UP then Place(SUp(p.st), CPop(p.ca))
    else if target == NEXT then Place(SNext(p.st), p.ca)
    else if target == PREVIOUS then Place(SPrevious(p.st), p.ca)
    else if target == TOP then RewindPlace(p)
    else if target == SAME then Place(p.st.(moves := Wrap32(p.st.moves + 1)), p.ca)
    else Place(SDown(p.st, target), CPush(p.ca))
  }

  ghost function PlaceOf(st: State, ca: Cache): Place
    requires st.Valid()
    reads st, st.Flags, ca
  {
    Place(st.View(), ca.View())
  }

  method Rewind(sym0: Bytes, st: State, ca: Cache) returns (sym: Bytes)
    requires st.Valid() && ca.Valid() && sym0 == Where(st.View())
    modifies st, ca
    ensures ca.Valid() && PlaceOf(st, ca) == RewindPlace(old(PlaceOf(st, ca)))
    ensures sym == if old(st.ExecPath) == [] then [] else old(st.ExecPath)[0]
  {
    sym := sym0;
    while true
      invariant ca.Valid()
      invariant RewindPlace(PlaceOf(st, ca)) == RewindPlace(old(PlaceOf(st, ca)))
      invariant sym == Where(st.View())
      decreases |st.ExecPath|
    {
      hide CPop, BitsOf;
      var notTop := st.Top();
      if notTop == Some(true) {
        break;
      }
      var up := st.Up();
      if up.None? {
        sym := [];
        break;
      }
      sym := up.value;
      ca.Pop();
    }
  }

  /** Routes a target to its move. An index error leaves everything unchanged. */
  method ApplyTarget(target: Bytes, st: State, ca: Cache) returns (r: Nav)
    requires st.Valid() && ca.Valid()
    modifies st, ca
    ensures ca.Valid()
    ensures r == TargetOut(old(st.View()), target)
    ensures PlaceOf(st, ca) == TargetPlace(old(PlaceOf(st, ca)), target)
  {
    hide CPop, CPush, RewindPlace, ValidSym, BitsOf;
    var sym, idx := st.Location();
    if !ValidTarget(target) {
      return Refused;
    }
    if target == UP {
      var up := st.Up();
      if up.None? {
        return Refused;
      }
      sym := up.value;
      ca.Pop();
    } else if target == NEXT {
      var moved := st.Next();
      if !moved.Moved? {
        return Refused;
      }
    } else if target == PREVIOUS {
      var moved := st.Previous();
      if moved.AtFirstIndex? {
        return AtFirstPage;
      } else if moved.NoRoot? {
        return Refused;
      }
    } else if target == TOP {
      sym := Rewind(sym, st, ca);
    } else if target == SAME {
      st.Same();
    } else {
      sym := target;
      if |st.ExecPath| > MAX_LEVEL || (st.ExecPath != [] && st.ExecPath[|st.ExecPath| - 1] == target) {
        return NavPanic;
      }
      st.Down(sym);
      ca.Push();
    }
    return To(sym);
  }

  /** What CheckTarget reports: None is an error. For targets that begin with `_` it asks for the top node. */
  method CheckTarget(target: Bytes, st: State) returns (r: Option<bool>)
    requires st.Valid()
    ensures r.None? <==> !ValidTarget(target) || (target[0] == 95 && st.ExecPath == [])
    ensures target == NEXT || target == PREVIOUS ==> (r == Some(true) <==> TargetOut(st.View(), target).To?)
    ensures target == UP && r.Some? ==> (r.value <==> |st.ExecPath| == 1) && TargetOut(st.View(), UP).To?
    ensures ValidTarget(target) && target[0] !in [95, 60, 62] ==> r == Some(true)
  {
    hide BitsOf;
    if !ValidTarget(target) {
      return None;
    }
    if target[0] == 95 {
      var top := st.Top();
      return top;
    } else if target[0] == 60 {
      var next, previous := st.Sides();
      return Some(previous);
    } else if target[0] == 62 {
      var next, previous := st.Sides();
      return Some(next);
    }
    return Some(true);
  }
}
