/** Pages to look at: lines that are lost or refused, and a reservation that is met. */
module PageExamples {
  import opened Common
  import opened Menus
  import opened Sizing
  import opened Paging
  import opened PagingProofs
  import opened PagingBudgets
  import opened Resources
  import opened Templates
  import opened Rendering
  import opened PageProofs
  import opened BrowseErrors

  const A: byte := 97
  const B: byte := 98
  const C: byte := 99

  /** Two lines fill the first page, so that an empty third line opens the second. */
  lemma {:induction false} EmptyThird()
    ensures Pack([[A], [B]], 3, 0) == Packed([], [[A], [B]], 3) && !TakesItem([[A], [B]], [], 3)
    ensures Pack([[A], [B], []], 3, 0) == Packed([[[A], [B]]], [], 2)
  {
    var none: seq<Bytes>, one: seq<Bytes>, two: seq<Bytes>, three: seq<Bytes> := [], [[A]], [[A], [B]], [[A], [B], []];
    assert one[..0] == none && two[..1] == one && three[..2] == two;
    assert PageText(none) == [] && PageText(one) == [A];
    JoinSnoc(one, [B], NUL);
    assert one + [[B]] == two;
    assert |PageText(two)| == 3;
    hide PageText;
    assert Pack(none, 3, 0) == Packed([], none, 3);
    assert Pack(one, 3, 0) == Packed([], one, 3);
    assert Pack(two, 3, 0) == Packed([], two, 3);
    assert Pack(three, 3, 0) == Packed([two], none, 2);
  }

  /** Four lines of which the third is empty: it opens the second page, and the pages hold three lines. */
  lemma {:induction false} LostEmptyLine()
    ensures Pack([[A], [B], [], [C]], 3, 0) == Packed([[[A], [B]]], [[C]], 2)
    ensures EmptyOpens([[A], [B], [], [C]], 3, 0)
  {
    var two: seq<Bytes>, three: seq<Bytes>, four: seq<Bytes> := [[A], [B]], [[A], [B], []], [[A], [B], [], [C]];
    assert four[..3] == three && four[..2] == two;
    EmptyThird();
    assert EmptyOpensAt(four, 2, 3, 0) by {
      hide Pack, TakesItem;
    }
    EmptyText();
    assert TakesItem([], [C], 2);
    hide TakesItem;
  }

  lemma EmptyText()
    ensures PageText([]) == []
  {
  }

  /** The line behind one that is lost so is held against its page: here it is too long, and nothing is rendered. */
  lemma {:induction false} LineAfterEmptyIsRefused()
    ensures Pack([[A], [B], [], [C, C]], 3, 0) == Overflow(3, [[[A], [B]]])
  {
    var three: seq<Bytes>, four: seq<Bytes> := [[A], [B], []], [[A], [B], [], [C, C]];
    assert four[..3] == three;
    EmptyThird();
    EmptyText();
    assert !TakesItem([], [C, C], 2);
    hide TakesItem;
  }

  /** A line too long for a later page, behind one that fits, is packed all the same, over the budget of its page. */
  lemma {:induction false} OversizeLineIsPacked()
    ensures Pack([[A], [C, C, C]], 3, 0) == Packed([[[A]]], [[C, C, C]], 2)
    ensures |PageText([[C, C, C]])| == 3 > Budget(1, 3, 0)
  {
    var none: seq<Bytes>, one: seq<Bytes>, two: seq<Bytes> := [], [[A]], [[A], [C, C, C]];
    assert one[..0] == none && two[..1] == one;
    assert PageText(none) == [] && PageText(one) == [A] && PageText([[C, C, C]]) == [C, C, C];
    hide PageText;
    assert Pack(none, 3, 0) == Packed([], none, 3);
    assert Pack(one, 3, 0) == Packed([], one, 3);
    assert none + [[A]] == one;
  }

  const SYMBOL: Bytes := [120]

  /** `{{.x}}` */
  const SYMBOL_SOURCE: Bytes := [123, 123, 46, 120, 125, 125]

  lemma SymbolCompiles()
    ensures Compile(SYMBOL_SOURCE) == Plain([Ref(SYMBOL)])
    ensures SYMBOL_SOURCE + [] == SYMBOL_SOURCE
  {
    var s := SYMBOL_SOURCE;
    var tail := s[3..];
    assert tail[1..][0] == RBRACE;
    assert KeyLength(tail[1..]) == 0 && KeyLength(tail) == 1;
    assert PlaceholderLength(s) == 6;
    assert s[3..4] == SYMBOL && s[6..] == [];
    assert Compile([]) == Plain([]);
    assert [Ref(SYMBOL)] + [] == [Ref(SYMBOL)];
  }

  /** A line of four bytes. */
  const FOUR: Bytes := [A, A, A, A]

  /** `1:n` leads to the next page and `2:p` to the previous one. */
  const BROWSE: BrowseConfig := BrowseConfig(true, [49], [110], true, [50], [112])

  /** A page with nothing but a sink of three lines and the two browse lines, in a space of 13 bytes. */
  const THREE_LINES: PageV :=
    PageV(map[SYMBOL := []], Some(SYMBOL), Some(NEW_MENU.(browse := BROWSE)), Some(SizerV(13, map[], 0, [], SYMBOL)), None, [])

  const THREE_ITEMS: SplitV := SplitDone(map[SYMBOL := []], SYMBOL, [FOUR, FOUR, FOUR])

  lemma {:induction false} ThreePacked()
    ensures Pack([FOUR, FOUR, FOUR], 8, 3) == Packed([[FOUR], [FOUR]], [FOUR], 4)
  {
    var none: seq<Bytes>, one: seq<Bytes>, two: seq<Bytes>, three: seq<Bytes> := [], [FOUR], [FOUR, FOUR], [FOUR, FOUR, FOUR];
    assert one[..0] == none && two[..1] == one && three[..2] == two;
    assert PageText(none) == [] && PageText(one) == FOUR;
    hide PageText;
    assert Pack(none, 8, 3) == Packed([], none, 8);
    assert Pack(one, 8, 3) == Packed([], one, 8);
    assert Pack(two, 8, 3) == Packed([one], one, 4);
    assert Pack(three, 8, 3) == Packed([one, one], one, 4);
  }

  lemma {:induction false} ThreeCounted()
    ensures Countable([FOUR, FOUR, FOUR])
  {
    var none: seq<Bytes>, one: seq<Bytes>, two: seq<Bytes>, three: seq<Bytes> := [], [FOUR], [FOUR, FOUR], [FOUR, FOUR, FOUR];
    assert three[1..] == two && two[1..] == one && one[1..] == none;
    assert Total(none) == 0 && Total(one) == 4 && Total(two) == 8 && Total(three) == 12;
  }

  lemma {:induction false} BrowseMeasured(rs: Resource)
    requires rs.title == PLAIN_TITLES
    ensures var m := THREE_LINES.menu.value;
      && MenuReady(m, rs.title) && MRenderOut(m, rs.title, 0) == Rendered([])
      && ReservedSizes(THREE_LINES).next == 3 && ReservedSizes(THREE_LINES).previous == 3
      && LinesMeasured(THREE_LINES, rs)
  {
    WrapSmall(3);
    WrapSmall(6);
  }

  /** Without its sink the page is empty. */
  lemma {:induction false} EmptyBase(rs: Resource, sym: Bytes)
    requires rs.template(sym) == Some(SYMBOL_SOURCE) && rs.title == PLAIN_TITLES
    ensures var p, sp := THREE_LINES, THREE_ITEMS;
      && Ready(p, rs, sp) && OnePlaceholder(p, rs, sym, sp.sink) && Base(p, rs, sym, sp) == Done([])
  {
    hide MenuReady, MRenderOut, GetAtV, Compile;
    var p, sp := THREE_LINES, THREE_ITEMS;
    var t: Template := [Ref(SYMBOL)];
    BrowseMeasured(rs);
    SymbolCompiles();
    assert t[1..] == [];
    assert Composed(SYMBOL_SOURCE, p.extra, p.err) == SYMBOL_SOURCE;
    assert Pieces(p, rs, sym) == t;
    assert Occurrences(t[1..], SYMBOL) == 0 && Occurrences(t, SYMBOL) == 1;
    var nothing: Bytes := [];
    assert nothing + nothing == nothing && sp.noSink[SYMBOL] == nothing;
    assert Execute(t[1..], sp.noSink) == Some(nothing);
    assert Execute(t, sp.noSink) == Some(nothing);
    BaseTemplate(p, rs, sym, sp);
  }

  /** The conditions of the reservation can be met, browse lines included: three lines on three pages. */
  lemma {:induction false} ReservationCanBeMet(rs: Resource, sym: Bytes)
    requires rs.template(sym) == Some(SYMBOL_SOURCE) && rs.title == PLAIN_TITLES
    ensures var p, sp := THREE_LINES, THREE_ITEMS;
      && Ready(p, rs, sp) && OnePlaceholder(p, rs, sym, sp.sink) && BaseFits(p, rs, sym, sp)
      && LinesMeasured(p, rs) && Countable(sp.items)
      && Roomy(p, Remaining(p, rs, sym, sp), |sp.items|) && ItemsFit(p, Remaining(p, rs, sym, sp), sp.items)
      && var k := PackingOf(p, Remaining(p, rs, sym, sp), sp.items);
         k.Packed? && Pages(k) == [[FOUR], [FOUR], [FOUR]]
    ensures ReservedSizes(THREE_LINES).next == 3 && ReservedSizes(THREE_LINES).previous == 3
  {
    hide Ready, OnePlaceholder, Base, LinesMeasured, Countable, ReservedSizes, Pack, Wrap32;
    EmptyBase(rs, sym);
    BrowseMeasured(rs);
    ThreeCounted();
    ThreePacked();
    WrapSmall(8);
    assert [[FOUR], [FOUR]] + [[FOUR]] == [[FOUR], [FOUR], [FOUR]];
  }

  // ----- a template and a menu -----

  /** `Hi`, and a menu of one item: `1:foo` */
  const HI: Bytes := [72, 105]
  const FOO_MENU: MenuV := NEW_MENU.(items := [([49], [102, 111, 111])])

  /** The menu is under the template: `Hi`, a newline, `1:foo`. */
  lemma {:induction false} MenuIsBelow(rs: Resource, sym: Bytes)
    requires rs.template(sym) == Some(HI) && rs.title == PLAIN_TITLES
    ensures RenderOut(PageV(map[], None, Some(FOO_MENU), None, None, []), rs, sym, map[], 0)
         == Done([72, 105, LF, 49, 58, 102, 111, 111])
  {
    hide Compile, Execute;
    var p := PageV(map[], None, Some(FOO_MENU), None, None, []);
    assert HI[1..] == [105];
    LiteralIff(HI);
    ExecuteLits(HI, map[]);
    assert HI + [] == HI;
    TextOfOne(FOO_MENU.items[0], [COLON], PLAIN_TITLES);
    assert FOO_MENU.items[1..] == [];
    assert FirstUntitled(FOO_MENU.items, PLAIN_TITLES) == 1;
    assert LineOf(FOO_MENU.items[0], [COLON], PLAIN_TITLES) == [49, 58, 102, 111, 111];
    assert MRenderOut(FOO_MENU, PLAIN_TITLES, 0) == MenuOut.Rendered([49, 58, 102, 111, 111]);
    assert HI + [LF] + [49, 58, 102, 111, 111] == [72, 105, LF, 49, 58, 102, 111, 111];
    MenuUnderTemplate(p, rs, sym, map[], 0);
    assert TemplateText(p, rs, sym, map[], 0) == Done(HI);
  }

  // ----- a page rendered twice -----

  /** One line and a plain menu, with the cursors and the page count of earlier renders. */
  function OneLine(crsrs: seq<u32>, pageCount: u16): PageV {
    PageV(map[SYMBOL := [A]], Some(SYMBOL), Some(NEW_MENU.(pageCount := pageCount)),
          Some(SizerV(13, map[], 0, crsrs, SYMBOL)), None, [])
  }

  const ONE_ITEM: SplitV := SplitDone(map[SYMBOL := []], SYMBOL, [[A]])

  lemma {:induction false} OneItemSplit()
    ensures Splits(map[SYMBOL := [A]], map[SYMBOL := 0], ONE_ITEM)
  {
    var values, sizes: map<Bytes, u16> := map[SYMBOL := [A]], map[SYMBOL := 0];
    var a: Bytes, nothing: Bytes := [A], [];
    assert a[1..] == nothing;
    assert SplitLines(nothing) == [nothing];
    assert [A] + nothing == a;
    assert SplitLines(a) == [a];
    assert Emptied(values, sizes, values.Keys) == map[SYMBOL := []];
  }

  lemma {:induction false} OnePacked()
    ensures Pack([[A]], 12, 0) == Packed([], [[A]], 12)
    ensures SunkText(Packed([], [[A]], 12)) == [A]
  {
    var none: seq<Bytes>, one: seq<Bytes> := [], [[A]];
    assert one[..0] == none;
    assert PageText(none) == [] && PageText(one) == [A];
    assert Pack(none, 12, 0) == Packed([], none, 12);
    var nothing: Bytes := [];
    assert ClosedText([]) == nothing && nothing + [A] == [A];
  }

  lemma {:induction false} SymbolText(rs: Resource, sym: Bytes, text: Bytes)
    requires rs.template(sym) == Some(SYMBOL_SOURCE)
    ensures Expand(rs, Composed(SYMBOL_SOURCE, [], None), map[SYMBOL := text]) == Done(text)
  {
    hide Compile;
    SymbolCompiles();
    var t: Template, none: Template, nothing: Bytes := [Ref(SYMBOL)], [], [];
    assert t[1..] == none;
    assert Execute(none, map[SYMBOL := text]) == Some(nothing);
    assert text + nothing == text;
  }

  lemma {:induction false} FirstOfOne()
    ensures PageAt([], 0) == [] && PageAt([A], 0) == [A]
  {
    var a: Bytes := [A];
    assert a[0..] == a;
    assert IndexOf(a, LF) == -1;
    var nothing: Bytes := [];
    assert a[1..] == nothing;
    assert Replace(nothing, NUL, LF) == nothing;
    assert Replace(a, NUL, LF) == [A] + nothing;
  }

  /** Preparing such a page adds a cursor to those already there. */
  lemma {:induction false} OneLinePrepared(rs: Resource, sym: Bytes, crsrs: seq<u32>, pageCount: u16)
    requires rs.template(sym) == Some(SYMBOL_SOURCE) && rs.title == PLAIN_TITLES
    requires (crsrs == [] && pageCount == 0) || (crsrs == [0] && pageCount == 1)
    ensures PrepareOut(OneLine(crsrs, pageCount), ONE_ITEM, rs, sym) == Done(map[SYMBOL := [A]])
    ensures PrepareState(OneLine(crsrs, pageCount), ONE_ITEM, rs, sym) == OneLine(crsrs + [0], 1)
  {
    hide Pack, PageAt, Expand, Composed, SunkText, MSizes;
    var p, sp := OneLine(crsrs, pageCount), ONE_ITEM;
    OnePacked();
    FirstOfOne();
    SymbolText(rs, sym, []);
    NoMenuSizes();
    Wrap16Two();
    var p1 := WithCursors(p, [0]);
    assert p1.sizer.value.crsrs[0] == 0;
    assert sp.noSink[SYMBOL := []] == sp.noSink;
    assert TemplateText(p1, rs, sym, sp.noSink, 0) == Done([]);
    assert MRenderOut(p.menu.value, rs.title, 0) == Rendered([]);
    assert RenderOut(p1, rs, sym, sp.noSink, 0) == Done([]);
    assert PackingOf(p, 13, sp.items) == Packed([], [[A]], 12);
    CheckFits(13, []);
    assert sp.noSink[SYMBOL := [A]] == map[SYMBOL := [A]];
    assert FillOut(p, rs, sym, sp) == Done(map[SYMBOL := [A]]);
    assert p1.sizer.value.crsrs + ClosedCursors([]) == crsrs + [0];
    assert RenderState(p1, rs, sym, sp.noSink, 0) == p1;
    assert SunkCount(Packed([], [[A]], 12)) == 1;
    assert FillState(p, rs, sym, sp, false) == OneLine(crsrs + [0], 1);
  }

  /**
   Without a reset between two renders there is a cursor too many, and a page past the last is a browse
   error: here the second page of one line, asked for once the first has been rendered.
   */
  lemma {:induction false} SecondRenderIsBrowseError(rs: Resource, sym: Bytes)
    requires rs.template(sym) == Some(SYMBOL_SOURCE) && rs.title == PLAIN_TITLES
    ensures Splits(OneLine([], 0).values, map[SYMBOL := 0], ONE_ITEM)
    ensures PageState(OneLine([], 0), ONE_ITEM, rs, sym, 0) == OneLine([0], 1)
    ensures IsBrowseError(PageOut(PageState(OneLine([], 0), ONE_ITEM, rs, sym, 0), ONE_ITEM, rs, sym, 1))
  {
    hide PageAt, Expand, Composed, PrepareOut, PrepareState;
    OneItemSplit();
    OneLinePrepared(rs, sym, [], 0);
    OneLinePrepared(rs, sym, [0], 1);
    FirstOfOne();
    SymbolText(rs, sym, [A]);
    Wrap16Two();
    var none: seq<u32> := [];
    assert none + [0] == [0];
    assert map[SYMBOL := [A]][SYMBOL := [A]] == map[SYMBOL := [A]];
    assert TemplateText(OneLine([0], 1), rs, sym, map[SYMBOL := [A]], 0) == Done([A]);
    assert TemplateText(OneLine([0, 0], 1), rs, sym, map[SYMBOL := [A]], 1) == Done([A]);
  }

  lemma NoMenuSizes()
    ensures MSizes(NO_BROWSE) == MenuSizes(0, 0, 0, 0)
  {
  }

  lemma Wrap16Two()
    ensures Wrap16(1) == 1 && Wrap16(2) == 2 && Wrap32(13 - 1) == 12
  {
  }
}
