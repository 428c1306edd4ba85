/** What a compiled menu means to the machine: it shows its items, waits, and applies the chosen one. */
module MenuRuns {
  import opened Common
  import opened Codec
  import opened CodecProofs
  import opened States
  import opened Caching
  import opened Menus
  import opened Resources
  import opened Navigation
  import opened Running
  import opened Dispatch
  import opened MenuCompiler

  // ----- showing the menu -----

  /** The menu entries of the items, in order: NEXT and PREVIOUS are not entries. */
  function Listed(items: seq<MenuItem>): seq<Item> {
    if items == [] then []
    else
      (if items[0].code == MenuDown || items[0].code == MenuUp then [(items[0].choice, items[0].display)] else [])
      + Listed(items[1..])
  }

  /** The browse settings the items leave: those of the last NEXT and of the last PREVIOUS. */
  function Browsed(b: BrowseConfig, items: seq<MenuItem>): BrowseConfig
    decreases |items|
  {
    if items == [] then b
    else
      var i := items[0];
      Browsed(if i.code == MenuNext then b.(NextAvailable := true, NextSelector := i.choice, NextTitle := i.display)
              else if i.code == MenuPrevious then
                b.(PreviousAvailable := true, PreviousSelector := i.choice, PreviousTitle := i.display)
              else b, items[1..])
  }

  /** The machine with the items on its menu. */
  function MenuShown(v: VmV, items: seq<MenuItem>): (r: VmV)
    requires Sound(v)
    ensures Sound(r) && r.st == v.st && r.ca == v.ca
  {
    var m := v.pg.menu.value;
    WithMenu(v, m.(items := m.items + Listed(items), browse := Browsed(m.browse, items)))
  }

  lemma ShownNone(v: VmV)
    requires Sound(v)
    ensures MenuShown(v, []) == v
  {
    assert v.pg.menu.value.items + [] == v.pg.menu.value.items;
  }

  lemma ShownMore(v: VmV, items: seq<MenuItem>)
    requires Sound(v) && items != []
    ensures MenuShown(v, items) == MenuShown(MenuShown(v, [items[0]]), items[1..])
  {
    var m := v.pg.menu.value;
    FirstShown(m.browse, items);
    hide Listed, Browsed;
    assert m.items + Listed(items) == (m.items + Listed([items[0]])) + Listed(items[1..]);
  }

  lemma FirstShown(b: BrowseConfig, items: seq<MenuItem>)
    requires items != []
    ensures Listed(items) == Listed([items[0]]) + Listed(items[1..])
    ensures Browsed(b, items) == Browsed(Browsed(b, [items[0]]), items[1..])
  {
    assert [items[0]][1..] == [];
    assert forall b' :: Browsed(b', []) == b';
  }

  lemma ShowStep(rs: Resource, v: VmV, i: MenuItem, rest: Bytes)
    requires Idle(v) && GoodItem(i) && rest != []
    ensures StepOf(rs, v, LineBytes(PreLine(i)) + rest) == Onward(MenuShown(v, [i]), rest)
    ensures Idle(MenuShown(v, [i]))
  {
    hide LineBytes, OpSplit, ParseTwoSym, Prelude, Settle, DoMenu, MenuShown, Idle, DoCatch, DoCroak, DoLoad, DoReload,
      DoMap, DoMove,
      DoInCmp, DoMSink;
    var op := PreLine(i).op;
    var b := LineBytes(PreLine(i)) + rest;
    ShownIdle(v, i);
    PreludeIdle(v);
    ReadTwoSym(op, i.display, i.choice, rest);
    ShowsOne(v, i, OpSplit(b).rest, rest);
    GoesOn(rs, MenuShown(v, [i]), rest);
  }

  lemma ShownIdle(v: VmV, i: MenuItem)
    requires Idle(v)
    ensures !v.st.flags[FLAG_TERMINATE] && Idle(MenuShown(v, [i]))
  {
    hide Listed, Browsed;
  }

  lemma ShowsOne(v: VmV, i: MenuItem, bb: Bytes, rest: Bytes)
    requires Sound(v) && ParseTwoSym(bb) == Ok((i.display, i.choice), rest)
    ensures DoMenu(PreLine(i).op, v, bb) == Ran(MenuShown(v, [i]), Go(rest))
  {
    hide ParseTwoSym;
    assert [i][1..] == [];
    var m := v.pg.menu.value;
    assert Listed([i]) == if i.code == MenuDown || i.code == MenuUp then [(i.choice, i.display)] else [];
    assert m.items + [] == m.items;
    assert forall b :: Browsed(b, []) == b;
    assert Browsed(m.browse, [i]) == Browsed(
      if i.code == MenuNext then m.browse.(NextAvailable := true, NextSelector := i.choice, NextTitle := i.display)
      else if i.code == MenuPrevious then
        m.browse.(PreviousAvailable := true, PreviousSelector := i.choice, PreviousTitle := i.display)
      else m.browse, []);
  }

  lemma HaltStep(rs: Resource, v: VmV, rest: Bytes)
    requires Idle(v)
    ensures StepOf(rs, v, LineBytes(HALT_LINE) + rest) == Returned(WithFlag(v, FLAG_WAIT, true), rest)
  {
    PreludeIdle(v);
    ReadOpcode(HALT_LINE, rest);
    assert Arguments(HALT_LINE) == [];
    assert [] + rest == rest;
    hide LineBytes, OpSplit, Prelude;
  }

  /** Showing any number of items, and then the HALT. */
  lemma {:induction false} ShowAndHalt(rs: Resource, v: VmV, items: seq<MenuItem>, rest: Bytes)
    requires Idle(v) && forall i :: i in items ==> GoodItem(i)
    ensures Run(rs, v, ProgramBytes(PreLines(items)) + (LineBytes(HALT_LINE) + rest), |items| + 1)
         == Returned(WithFlag(MenuShown(v, items), FLAG_WAIT, true), rest)
    decreases |items|
  {
    var halt := LineBytes(HALT_LINE) + rest;
    var b := ProgramBytes(PreLines(items)) + halt;
    if items == [] {
      EmptyFront(halt);
      ShownNone(v);
      hide StepOf, LineBytes, ProgramBytes;
      assert PreLines(items) == [];
      HaltStep(rs, v, rest);
      OneStep(rs, v, b);
    } else {
      var later := ProgramBytes(PreLines(items[1..])) + halt;
      FrontLine(items, halt);
      HaltNotEmpty(rest);
      ShowStep(rs, v, items[0], later);
      RunOnce(rs, v, b, |items| + 1);
      ShownMore(v, items);
      hide StepOf, LineBytes, ProgramBytes, Run, MenuShown, Idle;
      ShowAndHalt(rs, MenuShown(v, [items[0]]), items[1..], rest);
    }
  }

  lemma EmptyFront(rest: Bytes)
    ensures ProgramBytes([]) + rest == rest
  {
  }

  lemma HaltNotEmpty(rest: Bytes)
    ensures LineBytes(HALT_LINE) + rest != []
  {
  }

  lemma FrontLine(items: seq<MenuItem>, rest: Bytes)
    requires items != []
    ensures ProgramBytes(PreLines(items)) + rest == LineBytes(PreLine(items[0])) + (ProgramBytes(PreLines(items[1..])) + rest)
    ensures rest != [] ==> ProgramBytes(PreLines(items[1..])) + rest != []
  {
    hide LineBytes;
    assert PreLines(items)[1..] == PreLines(items[1..]);
    Associates(LineBytes(PreLine(items[0])), ProgramBytes(PreLines(items[1..])), rest);
  }

  /** Run up to its HALT, a compiled menu shows its items and waits, with exactly the matches left to do. */
  lemma {:induction false} MenuHalts(rs: Resource, v: VmV, items: seq<MenuItem>)
    requires Idle(v) && forall i :: i in items ==> GoodItem(i)
    ensures Run(rs, v, MenuBytes(items), |items| + 1)
         == Returned(WithFlag(MenuShown(v, items), FLAG_WAIT, true), EntriesBytes(PostEntries(items)))
  {
    Associates(ProgramBytes(PreLines(items)), LineBytes(HALT_LINE), EntriesBytes(PostEntries(items)));
    hide Run, ProgramBytes, LineBytes, EntriesBytes, MenuShown, Idle;
    ShowAndHalt(rs, v, items, EntriesBytes(PostEntries(items)));
  }

  /** Given an input, the machine a menu has halted in waits where it was: same node, page and cache. */
  lemma MenuWaits(v: VmV, items: seq<MenuItem>, input: Bytes)
    requires Idle(v)
    ensures var halted := WithFlag(MenuShown(v, items), FLAG_WAIT, true);
      var w := halted.(st := halted.st.(input := Some(input)));
      Waiting(w) && w.st.path == v.st.path && w.st.idx == v.st.idx && w.ca == v.ca
  {
  }

  // ----- choosing -----

  /** The item the input chooses: the first with the input or the wildcard as its choice; or none. */
  function Chosen(items: seq<MenuItem>, input: Bytes): (k: nat)
    ensures k <= |items|
    ensures forall i :: 0 <= i < k ==> items[i].choice != input && items[i].choice != WILDCARD
    ensures k < |items| ==> items[k].choice == input || items[k].choice == WILDCARD
  {
    var k := FirstHit(PostEntries(items), input);
    assert forall i :: 0 <= i < k ==> !Hits(PostEntries(items)[i], input);
    k
  }

  /** No item behind item `k` has the input as its choice. */
  predicate ChosenOnce(items: seq<MenuItem>, input: Bytes, k: nat) {
    forall i :: k < i < |items| ==> items[i].choice != input
  }

  lemma MenuGood(items: seq<MenuItem>)
    requires forall i :: i in items ==> GoodItem(i)
    ensures AllGood(PostEntries(items))
  {
    forall e | e in PostEntries(items) ensures GoodEntry(e) {
      var k :| 0 <= k < |items| && PostEntries(items)[k] == e;
      assert GoodItem(items[k]);
    }
  }

  lemma ChosenOnceIs(items: seq<MenuItem>, input: Bytes, k: nat)
    requires k < |items| && AllGood(PostEntries(items)) && ChosenOnce(items, input, k)
    ensures NoneSelects(PostEntries(items)[k + 1..], input)
  {
    hide GoodEntry, PostEntry;
    var es := PostEntries(items);
    forall e | e in es[k + 1..] ensures e.sel != input && e in es {
      var i :| 0 <= i < |es| - k - 1 && es[k + 1..][i] == e;
      assert es[k + 1 + i] == e;
      PostChoice(items[k + 1 + i]);
    }
  }

  lemma PostChoice(i: MenuItem)
    ensures PostEntry(i).sel == i.choice
  {
  }

  /** What an item is for: DOWN enters its target, UP leaves the node, NEXT and PREVIOUS turn the page. */
  ghost function Effect(p: Place, i: MenuItem): Place
    requires p.st.path != [] && |p.ca.frames| >= 1 && (i.code == MenuPrevious ==> p.st.idx > 0)
  {
    match i.code
    case MenuDown => Place(SDown(p.st, i.target), CPush(p.ca))
    case MenuUp => Place(SUp(p.st), CPop(p.ca))
    case MenuNext => Place(SNext(p.st), p.ca)
    case MenuPrevious => Place(SPrevious(p.st), p.ca)
  }

  /** DOWN leads to another node, by name, and the stack has room for it. */
  predicate CanChoose(st: StateV, i: MenuItem) {
    i.code == MenuDown ==> ValidSym(i.target) && !DownPanics(st, i.target)
  }

  /** The move behind an item is its effect, except that there is no page before the first. */
  lemma EffectIs(st: StateV, ca: CacheV, i: MenuItem)
    requires st.path != [] && |ca.frames| >= 1 && CanChoose(st, i)
    ensures var out := TargetOut(st, PostEntry(i).target);
      if i.code == MenuPrevious && st.idx == 0 then out == AtFirstPage
      else
        var to := Effect(Place(st, ca), i);
        out == To(Where(to.st)) && TargetPlace(Place(st, ca), PostEntry(i).target) == to
  {
    hide CPush, CPop;
  }

  /** The machine after a match has been applied by an item's effect. */
  ghost function MovedBy(w: VmV, i: MenuItem): (r: VmV)
    requires Sound(w) && w.st.path != [] && (i.code == MenuPrevious ==> w.st.idx > 0)
  {
    var to := Effect(Place(w.st, w.ca), i);
    VReset(w.(st := to.st, ca := to.ca))
  }

  /**
   Compiled menus mean what they say. Resumed with an input, the code behind the HALT applies the effect of
   the chosen item, once, and of no other, and goes on with the code of the node it leads to, if no later
   item has the input as its choice. Without a chosen item, and for PREVIOUS on the first page, it moves to
   the catch node.
   */
  lemma {:induction false} MenuMeans(rs: Resource, v: VmV, items: seq<MenuItem>)
    requires Waiting(v) && items != [] && (forall i :: i in items ==> GoodItem(i))
    requires v.st.path != [] && Where(v.st) != [] && Where(v.st) != CATCH_NODE
    ensures
      var b, p, k := EntriesBytes(PostEntries(items)), Prelude(v), Chosen(items, v.st.input.value);
      if k == |items| then
        Run(rs, v, b, |items|) == Onward(Blamed(rs, Reading(p)), MOVE_CATCH)
      else if items[k].code == MenuPrevious && v.st.idx == 0 then
        Run(rs, v, b, |items|) == Onward(Blamed(rs, Reading(Flagged(p))), MOVE_CATCH)
      else
        var to := MovedBy(Flagged(p), items[k]);
        var code := rs.code(Where(to.st));
        ChosenOnce(items, v.st.input.value, k) && CanChoose(v.st, items[k]) && code.Some? ==>
          Run(rs, v, b, |items|) == Settle(rs, Onward(to, code.value))
  {
    hide *;
    WaitingSeeks(rs, v, [], 0);
    WaitingIsSound(v);
    var input, es := v.st.input.value, PostEntries(items);
    var b, p, k := EntriesBytes(es), Prelude(v), Chosen(items, input);
    MenuGood(items);
    ChosenIs(items, input);
    PreludeStays(rs, v);
    NothingBehind(b);
    FlaggedIs(p);
    if k == |items| {
      DispatchOnResume(rs, v, es, []);
      UnmatchedIsCaught(rs, p);
    } else {
      PreviousCanBeChosen(v.st, items[k]);
      if CanChoose(v.st, items[k]) && ((items[k].code == MenuPrevious && v.st.idx == 0) || ChosenOnce(items, input, k)) {
        if ChosenOnce(items, input, k) {
          ChosenOnceIs(items, input, k);
          UnrepeatedIs(rs, Flagged(p), es, k, input);
        } else {
          FirstPageStays(rs, Flagged(p), items, k, input);
        }
        DispatchOnResume(rs, v, es, []);
        ChoiceApplied(rs, v, b, Flagged(p), items[k], EntriesBytes(es[k + 1..]), |items|, k);
      }
    }
  }

  /** PREVIOUS does not move from the first page. */
  lemma FirstPageStays(rs: Resource, w: VmV, items: seq<MenuItem>, k: nat, input: Bytes)
    requires Sound(w) && k < |items| && items[k].code == MenuPrevious && w.st.idx == 0 && w.st.path != []
    ensures Unrepeated(rs, w, PostEntries(items), k, input)
  {
    EffectIs(w.st, w.ca, items[k]);
    hide TargetOut, NoneSelects;
  }

  lemma ChosenIs(items: seq<MenuItem>, input: Bytes)
    ensures var es, k := PostEntries(items), Chosen(items, input);
      k == FirstHit(es, input) && (k < |items| ==> es[k].target == PostEntry(items[k]).target && items[k] in items)
  {
  }

  lemma PreviousCanBeChosen(st: StateV, i: MenuItem)
    ensures i.code == MenuPrevious ==> CanChoose(st, i)
  {
  }

  lemma NothingBehind(b: Bytes)
    ensures b + [] == b
  {
  }

  lemma PreludeStays(rs: Resource, v: VmV)
    requires Waiting(v)
    ensures var p := Prelude(v);
      Seeking(p) && Idle(p) && p.st.path == v.st.path && p.st.idx == v.st.idx && p.ca == v.ca
    ensures var w := Flagged(Prelude(v));
      w.st.path == v.st.path && w.st.idx == v.st.idx && w.ca == v.ca && Where(w.st) == Where(v.st)
    ensures Where(Prelude(v).st) == Where(v.st)
    ensures forall i :: CanChoose(v.st, i) ==> CanChoose(Flagged(Prelude(v)).st, i)
  {
    PreludeFirst(rs, v, []);
  }

  lemma ChoiceApplied(rs: Resource, v: VmV, b: Bytes, w: VmV, i: MenuItem, later: Bytes, n: nat, k: nat)
    requires Sound(v) && Idle(w) && w.st.path != [] && Where(w.st) != [] && Where(w.st) != CATCH_NODE && CanChoose(w.st, i)
    requires Leads(rs, v, b, w, PostEntry(i).target, later, [], n, k)
    ensures
      if i.code == MenuPrevious && w.st.idx == 0 then Run(rs, v, b, n) == Onward(Blamed(rs, Reading(w)), MOVE_CATCH)
      else
        var to := MovedBy(w, i);
        var code := rs.code(Where(to.st));
        code.Some? ==> Run(rs, v, b, n) == Settle(rs, Onward(to, code.value))
  {
    EffectIs(w.st, w.ca, i);
    var code := rs.code(Where(w.st));
    hide Run, Settle, TargetOut, TargetPlace, Idle, Failure, ErrCheck, PostEntry, CanChoose, SDown, SUp, SNext,
      SPrevious, CPush, CPop;
    if i.code == MenuPrevious && w.st.idx == 0 {
      UnmatchedIsCaught(rs, w);
    } else {
      var to := MovedBy(w, i);
      var code := rs.code(Where(to.st));
      if code.Some? {
        assert [] + code.value == code.value;
      }
    }
  }

  // ----- from the first line of a menu to its effect -----

  /** The machine is at that node and page, with that cache. */
  predicate AtPlace(v: VmV, p: Place) {
    v.st.path == p.st.path && v.st.idx == p.st.idx && v.ca == p.ca
  }

  lemma {:induction false} EffectAt(v: VmV, w: VmV, i: MenuItem)
    requires Sound(v) && Sound(w) && AtPlace(w, Place(v.st, v.ca)) && v.st.path != [] && (i.code == MenuPrevious ==> v.st.idx > 0)
    ensures var to := MovedBy(w, i);
      Sound(to) && AtPlace(to, Effect(Place(v.st, v.ca), i)) && Where(to.st) == Where(Effect(Place(v.st, v.ca), i).st)
    ensures CanChoose(w.st, i) <==> CanChoose(v.st, i)
  {
    hide ValidSym, FrameTotal;
  }

  lemma SettleStays(rs: Resource, v: VmV, code: Bytes)
    requires Sound(v)
    ensures var r := Settle(rs, Onward(v, code));
      && AtPlace(r.v, Place(v.st, v.ca)) && (code != [] ==> r == Onward(v, code))
  {
  }

  /**
   A compiled menu, end to end. Run from its first byte it shows its items and waits. Given an input, and resumed with the
   code it has left, it is where the chosen item leads, with the code found there to do, if no later item repeats the
   choice; or, with no item chosen and with PREVIOUS on the first page, it is where it was, about to move to the
   catch node.
   */
  lemma {:induction false} MenuEndToEnd(rs: Resource, v: VmV, items: seq<MenuItem>, input: Bytes)
    requires Idle(v) && items != [] && (forall i :: i in items ==> GoodItem(i))
    requires v.st.path != [] && Where(v.st) != [] && Where(v.st) != CATCH_NODE
    ensures
      var halted := Run(rs, v, MenuBytes(items), |items| + 1);
      && halted.Returned? && AtPlace(halted.v, Place(v.st, v.ca)) && halted.v.pg == MenuShown(v, items).pg
      && var w := halted.v.(st := halted.v.st.(input := Some(input)));
      var r, k := Run(rs, w, halted.code, |items|), Chosen(items, input);
      if k == |items| || (items[k].code == MenuPrevious && v.st.idx == 0) then
        r.Onward? && r.code == MOVE_CATCH && AtPlace(r.v, Place(v.st, v.ca))
      else
        var to := Effect(Place(v.st, v.ca), items[k]);
        var code := rs.code(Where(to.st));
        ChosenOnce(items, input, k) && CanChoose(v.st, items[k]) && code.Some? ==>
          AtPlace(r.v, to) && (code.value != [] ==> r.Onward? && r.code == code.value)
  {
    hide *;
    IdleIsSound(v);
    MenuHalts(rs, v, items);
    MenuWaits(v, items, input);
    HaltedAt(v, items);
    var halted := Run(rs, v, MenuBytes(items), |items| + 1).v;
    Resumes(rs, v, halted.(st := halted.st.(input := Some(input))), items);
  }

  lemma HaltedAt(v: VmV, items: seq<MenuItem>)
    requires Sound(v)
    ensures var halted := WithFlag(MenuShown(v, items), FLAG_WAIT, true);
      AtPlace(halted, Place(v.st, v.ca)) && halted.pg == MenuShown(v, items).pg
    ensures forall w: VmV :: w.st.path == v.st.path && w.st.idx == v.st.idx && w.ca == v.ca ==> AtPlace(w, Place(v.st, v.ca))
  {
    hide Listed, Browsed;
  }

  /** Resumed where it waits, the machine of MenuMeans, told by place. */
  lemma {:induction false} Resumes(rs: Resource, v: VmV, w: VmV, items: seq<MenuItem>)
    requires Sound(v) && Waiting(w) && AtPlace(w, Place(v.st, v.ca))
    requires items != [] && (forall i :: i in items ==> GoodItem(i))
    requires v.st.path != [] && Where(v.st) != [] && Where(v.st) != CATCH_NODE
    ensures
      var r, k := Run(rs, w, EntriesBytes(PostEntries(items)), |items|), Chosen(items, w.st.input.value);
      if k == |items| || (items[k].code == MenuPrevious && v.st.idx == 0) then
        r.Onward? && r.code == MOVE_CATCH && AtPlace(r.v, Place(v.st, v.ca))
      else
        var to := Effect(Place(v.st, v.ca), items[k]);
        var code := rs.code(Where(to.st));
        ChosenOnce(items, w.st.input.value, k) && CanChoose(v.st, items[k]) && code.Some? ==>
          AtPlace(r.v, to) && (code.value != [] ==> r.Onward? && r.code == code.value)
  {
    hide Chosen, ChosenOnce, CanChoose, Effect, MovedBy, Settle, Prelude, Blamed, GoodItem, Idle, Run, EntriesBytes, PostEntries,
      Reading, Flagged;
    SameNode(v, w);
    MenuMeans(rs, w, items);
    PreludeStays(rs, w);
    var p, k := Prelude(w), Chosen(items, w.st.input.value);
    BlamedStays(rs, p);
    FlaggedIs(p);
    if k < |items| && !(items[k].code == MenuPrevious && v.st.idx == 0) {
      EffectAt(v, Flagged(p), items[k]);
      EffectAt(v, w, items[k]);
      var to := MovedBy(Flagged(p), items[k]);
      if rs.code(Where(to.st)).Some? {
        SettleStays(rs, to, rs.code(Where(to.st)).value);
      }
    }
  }

  lemma IdleIsSound(v: VmV)
    requires Idle(v)
    ensures Sound(v)
  {
  }

  lemma SameNode(v: VmV, w: VmV)
    requires w.st.path == v.st.path
    ensures Where(w.st) == Where(v.st)
  {
  }

  lemma BlamedStays(rs: Resource, p: VmV)
    requires Sound(p)
    ensures AtPlace(Blamed(rs, Reading(p)), Place(p.st, p.ca)) && AtPlace(Blamed(rs, Reading(Flagged(p))), Place(p.st, p.ca))
  {
  }
}
