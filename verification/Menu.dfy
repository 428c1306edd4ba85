/** The menu renderer (render/menu.go). */
module Menus {
  import opened Common

  const COLON: byte := 58

  datatype BrowseConfig = BrowseConfig(
    NextAvailable: bool, NextSelector: Bytes, NextTitle: Bytes,
    PreviousAvailable: bool, PreviousSelector: Bytes, PreviousTitle: Bytes)

  const NO_BROWSE := BrowseConfig(false, [], [], false, [], [])

  /** Resolves a menu label to the title shown for it; None is an error. */
  type Titles = Bytes -> Option<Bytes>

  /** What a menu without a resource does. */
  const PLAIN_TITLES: Titles := (t: Bytes) => Some(t)

  /** A menu item: selector and label. */
  type Item = (Bytes, Bytes)

  datatype MenuV = MenuV(
    items: seq<Item>, browse: BrowseConfig, pageCount: u16,
    canNext: bool, canPrevious: bool, sink: bool, keep: bool, sep: Bytes)

  datatype MenuOut = Rendered(text: Bytes) | OutOfRange(idx: u16, pageCount: u16) | NotPaged | NoTitle

  const NEW_MENU := MenuV([], NO_BROWSE, 0, false, false, false, true, [COLON])

  function NextItem(b: BrowseConfig): Item {
    (b.NextSelector, b.NextTitle)
  }

  function PreviousItem(b: BrowseConfig): Item {
    (b.PreviousSelector, b.PreviousTitle)
  }

  function TitleOf(titles: Titles, key: Bytes): Bytes {
    match titles(key)
    case Some(t) => t
    case None => []
  }

  function LineOf(item: Item, sep: Bytes, titles: Titles): Bytes {
    item.0 + sep + TitleOf(titles, item.1)
  }

  /** The lines of a menu. A line is put after a newline only when something precedes it. */
  function TextOf(items: seq<Item>, sep: Bytes, titles: Titles): Bytes {
    if items == [] then []
    else
      var before, line := TextOf(items[..|items| - 1], sep, titles), LineOf(items[|items| - 1], sep, titles);
      if before == [] then line else before + [LF] + line
  }

  /** The index of the first item whose title does not resolve; the number of items if all do. */
  function FirstUntitled(items: seq<Item>, titles: Titles): (r: nat)
    ensures r <= |items|
    ensures forall i :: 0 <= i < r ==> titles(items[i].1).Some?
    ensures r < |items| ==> titles(items[r].1).None?
  {
    if items == [] || titles(items[0].1).None? then 0
    else 1 + FirstUntitled(items[1..], titles)
  }

  predicate PageInRange(m: MenuV, idx: u16) {
    if m.pageCount == 0 then idx == 0 else idx < m.pageCount
  }

  predicate ShowsNext(m: MenuV, idx: u16) {
    m.pageCount != 0 && (m.canNext || m.browse.NextAvailable) && idx != m.pageCount - 1
  }

  predicate ShowsPrevious(m: MenuV, idx: u16) {
    m.pageCount != 0 && (m.canPrevious || m.browse.PreviousAvailable) && idx != 0
  }

  /** The browse items available on page `idx`. */
  function BrowseItems(m: MenuV, idx: u16): seq<Item> {
    (if ShowsNext(m, idx) then [NextItem(m.browse)] else []) +
    (if ShowsPrevious(m, idx) then [PreviousItem(m.browse)] else [])
  }

  function MApplyPage(m: MenuV, idx: u16): MenuV
    requires PageInRange(m, idx)
  {
    if m.pageCount == 0 then m
    else m.(items := m.items + BrowseItems(m, idx), canNext := ShowsNext(m, idx), canPrevious := ShowsPrevious(m, idx))
  }

  function MRenderOut(m: MenuV, titles: Titles, idx: u16): MenuOut {
    if !PageInRange(m, idx) then if m.pageCount == 0 then NotPaged else OutOfRange(idx, m.pageCount)
    else
      var all := MApplyPage(m, idx).items;
      if FirstUntitled(all, titles) < |all| then NoTitle else Rendered(TextOf(all, m.sep, titles))
  }

  /** The menu after a render: emptied, or restored when it is to be kept. */
  function MRenderState(m: MenuV, titles: Titles, idx: u16): MenuV {
    if !PageInRange(m, idx) then m
    else
      var m1 := MApplyPage(m, idx);
      var f := FirstUntitled(m1.items, titles);
      if f < |m1.items| then m1.(items := m1.items[f + 1..])
      else m1.(items := if m.keep then m.items else [])
  }

  function MReset(m: MenuV): MenuV {
    m.(canNext := m.canNext || m.browse.NextAvailable, canPrevious := m.canPrevious || m.browse.PreviousAvailable)
  }

  /** Sizes measured for the browse lines: [1] is the "next" line, [2] the "previous" line. */
  datatype MenuSizes = MenuSizes(main: u32, next: u32, previous: u32, both: u32)

  /** The browse lines as Sizes measures them: default separator, labels as titles. */
  function MeasuredNext(b: BrowseConfig): Bytes {
    if b.NextAvailable then b.NextSelector + [COLON] + b.NextTitle else []
  }

  function MeasuredPrevious(b: BrowseConfig): Bytes {
    if b.PreviousAvailable then b.PreviousSelector + [COLON] + b.PreviousTitle else []
  }

  function MSizes(b: BrowseConfig): MenuSizes {
    var next, previous := Wrap32(|MeasuredNext(b)|), Wrap32(|MeasuredPrevious(b)|);
    MenuSizes(0, next, previous, Wrap32(next + previous))
  }

  lemma TextOfNext(all: seq<Item>, i: nat, sep: Bytes, titles: Titles)
    requires i < |all|
    ensures
      var before := TextOf(all[..i], sep, titles);
      TextOf(all[..i + 1], sep, titles) ==
        (if before == [] then [] else before + [LF]) + LineOf(all[i], sep, titles)
  {
    assert all[..i + 1][..i] == all[..i];
  }

  /** The scratch menu of Sizes renders nothing, then the next line, then the previous line. */
  lemma ScratchMain(b: BrowseConfig)
    ensures var m := NEW_MENU.(browse := b);
      MRenderOut(m, PLAIN_TITLES, 0) == Rendered([]) && MRenderState(m, PLAIN_TITLES, 0) == m
  {
  }

  lemma ScratchNext(b: BrowseConfig)
    ensures var m := NEW_MENU.(browse := b, pageCount := 2);
      && MRenderOut(m, PLAIN_TITLES, 0) == Rendered(MeasuredNext(b))
      && MRenderState(m, PLAIN_TITLES, 0) == m.(canNext := b.NextAvailable)
  {
    var m := NEW_MENU.(browse := b, pageCount := 2);
    TextOfOne(NextItem(b), [COLON], PLAIN_TITLES);
    assert MApplyPage(m, 0).items == if b.NextAvailable then [NextItem(b)] else [];
  }

  lemma ScratchPrevious(b: BrowseConfig)
    ensures var m := NEW_MENU.(browse := b, pageCount := 2, canNext := b.NextAvailable);
      MRenderOut(m, PLAIN_TITLES, 1) == Rendered(MeasuredPrevious(b))
  {
    var m := NEW_MENU.(browse := b, pageCount := 2, canNext := b.NextAvailable);
    TextOfOne(PreviousItem(b), [COLON], PLAIN_TITLES);
    assert MApplyPage(m, 1).items == if b.PreviousAvailable then [PreviousItem(b)] else [];
  }

  lemma TextOfNone(sep: Bytes, titles: Titles)
    ensures TextOf([], sep, titles) == []
  {
  }

  lemma TextOfOne(item: Item, sep: Bytes, titles: Titles)
    ensures TextOf([item], sep, titles) == LineOf(item, sep, titles)
  {
    assert [item][..0] == [];
  }

  // ----- what a menu shows -----

  /** The lines of the items: selector, separator and title of each, in order. */
  function Lines(items: seq<Item>, sep: Bytes, titles: Titles): (r: seq<Bytes>)
    requires forall i :: 0 <= i < |items| ==> titles(items[i].1).Some?
    ensures |r| == |items| && forall i :: 0 <= i < |r| ==> r[i] == items[i].0 + sep + titles(items[i].1).value
  {
    seq(|items|, i requires 0 <= i < |items| => items[i].0 + sep + titles(items[i].1).value)
  }

  /** The text of a menu with a separator is its lines, each behind a newline but the first. */
  lemma {:induction false} TextIsLines(items: seq<Item>, sep: Bytes, titles: Titles)
    requires sep != [] && forall i :: 0 <= i < |items| ==> titles(items[i].1).Some?
    ensures TextOf(items, sep, titles) == Join(Lines(items, sep, titles), LF)
    ensures items != [] ==> TextOf(items, sep, titles) != []
  {
    if items != [] {
      var last := |items| - 1;
      TextIsLines(items[..last], sep, titles);
      var lines := Lines(items, sep, titles);
      assert lines == Lines(items[..last], sep, titles) + [LineOf(items[last], sep, titles)];
      JoinSnoc(lines[..last], lines[last], LF);
    }
  }

  /**
   The browse lines of each page: the next line on all pages but the last, the previous line on all but the first, and on a page that
   has both the next line comes first. A menu without pages has none. What is shown is remembered.
   */
  lemma BrowseLines(m: MenuV, idx: u16)
    requires PageInRange(m, idx)
    ensures
      var b, r := m.browse, MApplyPage(m, idx);
      var next, previous := (b.NextSelector, b.NextTitle), (b.PreviousSelector, b.PreviousTitle);
      var hasNext := (m.canNext || b.NextAvailable) && idx + 1 < m.pageCount;
      var hasPrevious := (m.canPrevious || b.PreviousAvailable) && idx > 0;
      && r.items == m.items +
           (if hasNext && hasPrevious then [next, previous]
            else if hasNext then [next]
            else if hasPrevious then [previous]
            else [])
      && (m.pageCount == 0 ==> r == m)
      && (m.pageCount > 0 ==> r.canNext == hasNext && r.canPrevious == hasPrevious)
      && r == m.(items := r.items, canNext := r.canNext, canPrevious := r.canPrevious)
  {
    assert m.items + [] == m.items;
    assert [NextItem(m.browse)] + [PreviousItem(m.browse)] == [NextItem(m.browse), PreviousItem(m.browse)];
  }

  /** A menu whose page is in range and whose titles all resolve is shown as these lines; else the first failure is told. */
  lemma MenuShows(m: MenuV, titles: Titles, idx: u16)
    requires m.sep != []
    ensures
      var out := MRenderOut(m, titles, idx);
      if m.pageCount == 0 && idx > 0 then out == NotPaged
      else if m.pageCount > 0 && idx >= m.pageCount then out == OutOfRange(idx, m.pageCount)
      else
        var all := MApplyPage(m, idx).items;
        if exists i :: 0 <= i < |all| && titles(all[i].1).None? then out == NoTitle
        else out == Rendered(Join(Lines(all, m.sep, titles), LF))
  {
    if PageInRange(m, idx) {
      var all := MApplyPage(m, idx).items;
      if forall i :: 0 <= i < |all| ==> titles(all[i].1).Some? {
        TextIsLines(all, m.sep, titles);
      }
      hide TextOf, MApplyPage;
    }
  }

  /** A menu that is kept has its items again after it is shown, one that is disposed of has none; the settings stay. */
  lemma MenuAfterwards(m: MenuV, titles: Titles, idx: u16)
    requires MRenderOut(m, titles, idx).Rendered?
    ensures
      var r := MRenderState(m, titles, idx);
      && r.items == (if m.keep then m.items else [])
      && r.canNext == MApplyPage(m, idx).canNext && r.canPrevious == MApplyPage(m, idx).canPrevious
      && r.browse == m.browse && r.pageCount == m.pageCount && r.sink == m.sink && r.keep == m.keep && r.sep == m.sep
  {
    hide TextOf;
  }

  class Menu {
    var titles: Titles
    var menu: seq<Item>
    var browse: BrowseConfig
    var pageCount: u16
    var canNext: bool
    var canPrevious: bool
    var sink: bool
    var keep: bool
    var sep: Bytes

    ghost function View(): MenuV
      reads this
    {
      MenuV(menu, browse, pageCount, canNext, canPrevious, sink, keep, sep)
    }

    constructor ()
      ensures View() == NEW_MENU && titles == PLAIN_TITLES
    {
      titles := PLAIN_TITLES;
      menu, browse, pageCount, canNext, canPrevious := [], NO_BROWSE, 0, false, false;
      sink, keep, sep := false, true, [COLON];
    }

    method WithSeparator(s: Bytes)
      modifies this
      ensures View() == old(View()).(sep := s) && titles == old(titles)
    {
      sep := s;
    }

    method WithPageCount(count: u16)
      modifies this
      ensures View() == old(View()).(pageCount := count) && titles == old(titles)
    {
      pageCount := count;
    }

    method WithPages()
      modifies this
      ensures View() == old(View()).(pageCount := if old(pageCount) == 0 then 1 else old(pageCount))
      ensures titles == old(titles)
    {
      if pageCount == 0 {
        pageCount := 1;
      }
    }

    method WithSink()
      modifies this
      ensures View() == old(View()).(sink := true) && titles == old(titles)
    {
      sink := true;
    }

    method WithDispose()
      modifies this
      ensures View() == old(View()).(keep := false) && titles == old(titles)
    {
      keep := false;
    }

    method WithBrowseConfig(cfg: BrowseConfig)
      modifies this
      ensures View() == old(View()).(browse := cfg) && titles == old(titles)
    {
      browse := cfg;
    }

    method WithResource(rs: Titles)
      modifies this
      ensures View() == old(View()) && titles == rs
    {
      titles := rs;
    }

    method Put(selector: Bytes, title: Bytes)
      modifies this
      ensures View() == old(View()).(items := old(menu) + [(selector, title)]) && titles == old(titles)
    {
      menu := menu + [(selector, title)];
    }

    method ApplyPage(idx: u16) returns (ok: bool)
      modifies this
      ensures titles == old(titles)
      ensures ok == PageInRange(old(View()), idx)
      ensures View() == if ok then MApplyPage(old(View()), idx) else old(View())
    {
      if pageCount == 0 {
        return idx == 0;
      } else if idx >= pageCount {
        return false;
      }
      ResetBrowse();
      if idx == pageCount - 1 {
        canNext := false;
      }
      if idx == 0 {
        canPrevious := false;
      }
      if canNext {
        Put(browse.NextSelector, browse.NextTitle);
      }
      if canPrevious {
        Put(browse.PreviousSelector, browse.PreviousTitle);
      }
      return true;
    }

    method ShiftMenu() returns (r: Item)
      requires menu != []
      modifies this
      ensures r == old(menu)[0]
      ensures View() == old(View()).(items := old(menu)[1..]) && titles == old(titles)
    {
      r := menu[0];
      menu := menu[1..];
    }

    /** Shifts the items off the menu one by one and joins their lines; stops at a title that fails. */
    method TakeLines() returns (r: Option<Bytes>)
      modifies this
      ensures titles == old(titles)
      ensures var f := FirstUntitled(old(menu), titles);
        if f == |old(menu)| then r == Some(TextOf(old(menu), sep, titles)) && View() == old(View()).(items := [])
        else r == None && View() == old(View()).(items := old(menu)[f + 1..])
    {
      hide TextOf, FirstUntitled;
      ghost var all := menu;
      ghost var i := 0;
      var text: Bytes := [];
      TextOfNone(sep, titles);
      while menu != []
        invariant 0 <= i <= FirstUntitled(all, titles) && menu == all[i..]
        invariant View() == old(View()).(items := menu) && titles == old(titles)
        invariant text == TextOf(all[..i], sep, titles)
        decreases |menu|
      {
        TextOfNext(all, i, sep, titles);
        var l := |text|;
        var item := ShiftMenu();
        if l > 0 {
          text := text + [LF];
        }
        var title := titles(item.1);
        if title.None? {
          return None;
        }
        text := text + (item.0 + sep + title.value);
        i := i + 1;
      }
      assert all[..i] == all;
      return Some(text);
    }

    method Render(idx: u16) returns (out: MenuOut)
      modifies this
      ensures titles == old(titles)
      ensures out == MRenderOut(old(View()), titles, idx)
      ensures View() == MRenderState(old(View()), titles, idx)
    {
      hide TextOf, FirstUntitled;
      var menuCopy := [];
      if keep {
        menuCopy := menu;
      }
      var ok := ApplyPage(idx);
      if !ok {
        return if pageCount == 0 then NotPaged else OutOfRange(idx, pageCount);
      }
      var text := TakeLines();
      if text.None? {
        return NoTitle;
      }
      if keep {
        menu := menuCopy;
      }
      return Rendered(text.value);
    }

    /** Measures the browse lines on a scratch menu: default separator, labels as titles. */
    method Sizes() returns (sizes: MenuSizes)
      ensures sizes == MSizes(browse)
    {
      hide MRenderOut, MRenderState, MeasuredNext, MeasuredPrevious, Wrap32;
      ScratchMain(browse);
      ScratchNext(browse);
      ScratchPrevious(browse);
      WrapSmall(0);
      var tmpm := new Menu();
      tmpm.WithBrowseConfig(browse);
      var main := tmpm.Measure(0);
      tmpm.WithPageCount(2);
      var withNext := tmpm.Measure(0);
      var withPrevious := tmpm.Measure(1);
      WrapSmall(withNext);
      WrapSmall(withPrevious);
      var next, previous := Wrap32((withNext as int) - main), Wrap32((withPrevious as int) - main);
      sizes := MenuSizes(main, next, previous, Wrap32((next as int) + previous));
    }

    method Measure(idx: u16) returns (l: u32)
      requires MRenderOut(View(), titles, idx).Rendered?
      modifies this
      ensures titles == old(titles)
      ensures l == Wrap32(|MRenderOut(old(View()), titles, idx).text|)
      ensures View() == MRenderState(old(View()), titles, idx)
    {
      var v := Render(idx);
      return Wrap32(|v.text|);
    }

    method ResetBrowse()
      modifies this
      ensures View() == MReset(old(View())) && titles == old(titles)
    {
      if browse.NextAvailable {
        canNext := true;
      }
      if browse.PreviousAvailable {
        canPrevious := true;
      }
    }

    method Reset()
      modifies this
      ensures View() == MReset(old(View()).(items := [], sink := false)) && titles == old(titles)
    {
      menu := [];
      sink := false;
      ResetBrowse();
    }
  }
}
