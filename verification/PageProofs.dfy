/** The space reserved for browsing is the space used: every page of a paged sink has exactly the predicted size. */
module PageProofs {
  import opened Common
  import opened Menus
  import opened Sizing
  import opened Paging
  import opened PagingProofs
  import opened PagingBudgets
  import opened Resources
  import opened Templates
  import opened Rendering

  // ----- templates -----

  /** The bytes that `n` bytes of content add at the placeholders of `key`. */
  function Extra(t: Template, key: Bytes, n: nat): nat {
    if t == [] then 0 else (if t[0] == Ref(key) then n else 0) + Extra(t[1..], key, n)
  }

  lemma {:induction false} ExtraOnce(t: Template, key: Bytes, n: nat)
    ensures Occurrences(t, key) == 0 ==> Extra(t, key, n) == 0
    ensures Occurrences(t, key) == 1 ==> Extra(t, key, n) == n
  {
    if t != [] {
      ExtraOnce(t[1..], key, n);
    }
  }

  /** Filling in a symbol that was empty adds its content at each of its placeholders. */
  lemma {:induction false} ExecuteFilled(t: Template, values: map<Bytes, Bytes>, key: Bytes, chunk: Bytes)
    requires key in values && values[key] == [] && Execute(t, values).Some?
    ensures Execute(t, values[key := chunk]).Some?
    ensures |Execute(t, values[key := chunk]).value| == |Execute(t, values).value| + Extra(t, key, |chunk|)
  {
    if t != [] {
      ExecuteFilled(t[1..], values, key, chunk);
    }
  }

  // ----- pending errors -----

  /**
   A pending error is part of the source. One that is a source by itself comes first, as it expands: alone when
   there is no template text, else on a line in front of what would have been rendered without it.
   */
  lemma ErrorInFront(p: PageV, rs: Resource, sym: Bytes, values: map<Bytes, Bytes>, idx: u16, e: Bytes)
    requires p.err.None? && rs.template(sym).Some? && Compile(e).Plain?
    requires !Compile(rs.template(sym).value + p.extra).Other?
    ensures var plain, out := TemplateText(p, rs, sym, values, idx), TemplateText(p.(err := Some(e)), rs, sym, values, idx);
      if !PagedValues(p.sizer, values, idx).Done? then out == plain
      else
        var head := Expand(rs, e, PagedValues(p.sizer, values, idx).value);
        if rs.template(sym).value + p.extra == [] then out == head
        else if !plain.Done? then out == plain
        else if !head.Done? then out == head
        else out == Done(head.value + [LF] + plain.value)
  {
    hide PagedValues, Execute, Compile;
    var full := rs.template(sym).value + p.extra;
    if PagedValues(p.sizer, values, idx).Done? {
      var v := PagedValues(p.sizer, values, idx).value;
      CompileLine(e, full);
      if Compile(full).Plain? {
        ExecuteLine(Compile(e).pieces, Compile(full).pieces, v);
      }
    }
  }

  lemma ExecuteLine(t: Template, u: Template, values: map<Bytes, Bytes>)
    ensures Execute(t + [Lit(LF)] + u, values) ==
      if Execute(t, values).None? || Execute(u, values).None? then None
      else Some(Execute(t, values).value + [LF] + Execute(u, values).value)
  {
    hide Execute;
    ExecuteAppend(t + [Lit(LF)], u, values);
    ExecuteAppend(t, [Lit(LF)], values);
    ExecuteNewline(values);
  }

  lemma ExecuteNewline(values: map<Bytes, Bytes>)
    ensures Execute([Lit(LF)], values) == Some([LF])
  {
    assert [Lit(LF)][1..] == [];
    assert [LF] + [] == [LF];
  }

  /** An error without `{{` is literal: it changes nothing about failures, and comes first as it is. */
  lemma LiteralError(p: PageV, rs: Resource, sym: Bytes, values: map<Bytes, Bytes>, idx: u16, e: Bytes)
    requires p.err.None? && rs.template(sym).Some? && !Doubled(e, LBRACE)
    requires !Compile(rs.template(sym).value + p.extra).Other?
    ensures var plain, out := TemplateText(p, rs, sym, values, idx), TemplateText(p.(err := Some(e)), rs, sym, values, idx);
      if !plain.Done? then out == plain
      else if rs.template(sym).value + p.extra == [] then plain.value == [] && out == Done(e)
      else out == Done(e + [LF] + plain.value)
  {
    hide Execute, Lits, PagedValues;
    LiteralIff(e);
    ErrorInFront(p, rs, sym, values, idx, e);
    if PagedValues(p.sizer, values, idx).Done? {
      ExecuteLits(e, PagedValues(p.sizer, values, idx).value);
      EmptyTemplate(PagedValues(p.sizer, values, idx).value);
    }
  }

  lemma EmptyTemplate(values: map<Bytes, Bytes>)
    ensures Compile([]) == Plain([]) && Execute([], values) == Some([])
  {
  }

  // ----- a menu as sink -----

  /**
   A menu that is the sink is rendered once, as its first page, and forgets its items; its lines become the content of `_menu`, for which
   there is a placeholder on a line behind the template. It cannot be the sink beside a mapped one.
   */
  lemma MenuStaged(p: PageV, rs: Resource, sp: SplitV)
    requires p.sizer.Some? && sp.SplitDone? && p.menu.Some? && p.menu.value.sink
    ensures
      var out, q := MenuStageOut(p, rs, sp), MenuStageState(p, rs, sp);
      var m := p.menu.value.(keep := false, pageCount := if p.menu.value.pageCount == 0 then 1 else p.menu.value.pageCount);
      var shown := MRenderOut(m, rs.title, 0);
      if sp.sink != [] then out == Fail(MenuSinkClash) && q == p
      else if !shown.Rendered? then out == Fail(MenuFault(shown))
      else
        var key: Bytes := [95, 109, 101, 110, 117];
        && out == Done(SplitDone(sp.noSink[key := []], key, SplitLines(shown.text)))
        && q.values == sp.noSink[key := []] && q.extra == [LF, 123, 123, 46] + key + [125, 125]
        && q.sizer == Some(p.sizer.value.(sink := key)) && q.err == p.err && q.sink == p.sink
        && q.menu.Some? && q.menu.value.items == [] && q.menu.value.browse == p.menu.value.browse && q.menu.value.sink
        && q.menu.value.pageCount == m.pageCount && !q.menu.value.keep
  {
    var m := DisposedMenu(p.menu.value);
    if MRenderOut(m, rs.title, 0).Rendered? {
      MenuAfterwards(m, rs.title, 0);
    }
    hide MRenderOut, MRenderState;
  }

  // ----- the order of a page -----

  /**
   A page is its template text, and under it, on a line of its own, what the menu shows, if that is anything. The template comes first
   in the order of failures, too, and the limit last.
   */
  lemma MenuUnderTemplate(p: PageV, rs: Resource, sym: Bytes, values: map<Bytes, Bytes>, idx: u16)
    ensures
      var text, out := TemplateText(p, rs, sym, values, idx), RenderOut(p, rs, sym, values, idx);
      if !text.Done? then out == text
      else
        var lines := if p.menu.Some? then MRenderOut(p.menu.value, rs.title, idx) else MenuOut.Rendered([]);
        if !lines.Rendered? then out == Fail(MenuFault(lines))
        else
          var full := if lines.text == [] then text.value else text.value + [LF] + lines.text;
          && text.value <= full
          && (out == Done(full) || (out == Fail(LimitExceeded) && p.sizer.Some?))
          && (|full| < 0x1_0000_0000 ==>
                (out == Fail(LimitExceeded) <==>
                   p.sizer.Some? && 0 < p.sizer.value.outputSize < |full|))
  {
    hide TemplateText, MRenderOut;
  }

  // ----- menus -----

  /** The bytes a menu text takes under the template: its own and a newline. */
  function MenuSpace(text: Bytes): nat {
    if text == [] then 0 else 1 + |text|
  }

  function ItemBytes(items: seq<Item>, sep: Bytes, titles: Titles): nat {
    if items == [] then 0
    else ItemBytes(items[..|items| - 1], sep, titles) + 1 + |LineOf(items[|items| - 1], sep, titles)|
  }

  /** Each line of a menu with a separator takes its length and a newline. */
  lemma {:induction false} MenuSpaceIs(items: seq<Item>, sep: Bytes, titles: Titles)
    requires sep != []
    ensures MenuSpace(TextOf(items, sep, titles)) == ItemBytes(items, sep, titles)
    ensures items != [] ==> TextOf(items, sep, titles) != []
  {
    if items != [] {
      MenuSpaceIs(items[..|items| - 1], sep, titles);
    }
  }

  lemma {:induction false} ItemBytesAppend(items: seq<Item>, more: seq<Item>, sep: Bytes, titles: Titles)
    ensures ItemBytes(items + more, sep, titles) == ItemBytes(items, sep, titles) + ItemBytes(more, sep, titles)
  {
    if more == [] {
      assert items + more == items;
    } else {
      var last := |more| - 1;
      assert (items + more)[..|items| + last] == items + more[..last];
      ItemBytesAppend(items, more[..last], sep, titles);
    }
  }

  lemma {:induction false} AllTitled(items: seq<Item>, titles: Titles)
    requires forall i :: 0 <= i < |items| ==> titles(items[i].1).Some?
    ensures FirstUntitled(items, titles) == |items|
  {
    if items != [] {
      AllTitled(items[1..], titles);
    }
  }

  /** The bytes of the browse lines shown on page `idx`, newlines included. */
  function BrowseBytes(m: MenuV, titles: Titles, idx: u16): nat {
    (if ShowsNext(m, idx) then 1 + |LineOf(NextItem(m.browse), m.sep, titles)| else 0) +
    (if ShowsPrevious(m, idx) then 1 + |LineOf(PreviousItem(m.browse), m.sep, titles)| else 0)
  }

  lemma BrowseBytesIs(m: MenuV, titles: Titles, idx: u16)
    ensures ItemBytes(BrowseItems(m, idx), m.sep, titles) == BrowseBytes(m, titles, idx)
  {
    var next := if ShowsNext(m, idx) then [NextItem(m.browse)] else [];
    var previous := if ShowsPrevious(m, idx) then [PreviousItem(m.browse)] else [];
    ItemBytesAppend(next, previous, m.sep, titles);
    OneItem(NextItem(m.browse), m.sep, titles);
    OneItem(PreviousItem(m.browse), m.sep, titles);
  }

  lemma OneItem(item: Item, sep: Bytes, titles: Titles)
    ensures ItemBytes([item], sep, titles) == 1 + |LineOf(item, sep, titles)|
  {
    assert [item][..0] == [];
  }

  /** The titles of the browse items resolve. */
  predicate BrowseTitled(m: MenuV, titles: Titles) {
    titles(m.browse.NextTitle).Some? && titles(m.browse.PreviousTitle).Some?
  }

  /** A menu page renders to its items and the browse lines shown on it. */
  lemma MenuPage(m: MenuV, titles: Titles, idx: u16)
    requires PageInRange(m, idx) && m.sep != []
    requires FirstUntitled(m.items, titles) == |m.items| && BrowseTitled(m, titles)
    ensures MRenderOut(m, titles, idx) == Rendered(TextOf(m.items + BrowseItems(m, idx), m.sep, titles))
    ensures MenuSpace(TextOf(m.items + BrowseItems(m, idx), m.sep, titles)) ==
            MenuSpace(TextOf(m.items, m.sep, titles)) + BrowseBytes(m, titles, idx)
  {
    var all := MApplyPage(m, idx).items;
    if m.pageCount == 0 {
      assert BrowseItems(m, idx) == [];
      assert m.items + [] == m.items;
    }
    assert all == m.items + BrowseItems(m, idx);
    AllTitled(all, titles);
    MenuSpaceIs(all, m.sep, titles);
    MenuSpaceIs(m.items, m.sep, titles);
    ItemBytesAppend(m.items, BrowseItems(m, idx), m.sep, titles);
    BrowseBytesIs(m, titles, idx);
  }

  // ----- one page -----

  /** A menu before rendering: not paged beyond one page, its browse flags set only for what is available. */
  predicate MenuReady(m: MenuV, titles: Titles) {
    && m.pageCount <= 1 && m.sep != [] && (m.keep || m.items == [])
    && (m.canNext ==> m.browse.NextAvailable) && (m.canPrevious ==> m.browse.PreviousAvailable)
    && BrowseTitled(m, titles)
  }

  /** A page about to be filled: cursors reset, and the sink is the sizer's and empty among the values. */
  predicate Ready(p: PageV, rs: Resource, sp: SplitV) {
    && sp.SplitDone? && sp.sink != [] && sp.sink in sp.noSink && sp.noSink[sp.sink] == []
    && p.sizer.Some? && p.sizer.value.outputSize > 0 && p.sizer.value.crsrs == [] && p.sizer.value.sink == sp.sink
    && (p.menu.Some? ==> MenuReady(p.menu.value, rs.title))
  }

  /** The source of the page, a pending error included, is text and placeholders. */
  predicate PlainPage(p: PageV, rs: Resource, sym: Bytes) {
    var t := rs.template(sym);
    t.Some? && Compile(Composed(t.value, p.extra, p.err)).Plain?
  }

  /** The pieces of the page's source. */
  function Pieces(p: PageV, rs: Resource, sym: Bytes): Template
    requires PlainPage(p, rs, sym)
  {
    Compile(Composed(rs.template(sym).value, p.extra, p.err)).pieces
  }

  /** The source is plain, with exactly one placeholder for the sink. */
  predicate OnePlaceholder(p: PageV, rs: Resource, sym: Bytes, sink: Bytes) {
    PlainPage(p, rs, sym) && Occurrences(Pieces(p, rs, sym), sink) == 1
  }

  /** The page rendered without its sink. */
  function Base(p: PageV, rs: Resource, sym: Bytes, sp: SplitV): Outcome<Bytes>
    requires sp.SplitDone? && p.sizer.Some?
  {
    RenderOut(WithCursors(p, [0]), rs, sym, sp.noSink, 0)
  }

  /** The menu that the pages are rendered with. */
  function PagedMenu(m: MenuV, titles: Titles, count: u16): MenuV {
    MRenderState(m, titles, 0).(pageCount := count)
  }

  /** The bytes of the browse lines on page `i` of `count`. */
  function ShownBytes(p: PageV, rs: Resource, count: u16, i: u16): nat {
    if p.menu.None? then 0 else BrowseBytes(PagedMenu(p.menu.value, rs.title, count), rs.title, i)
  }

  lemma EmptyPage(content: Bytes)
    ensures content == [] ==> PageAt(content, 0) == []
  {
  }

  lemma SameValue(values: map<Bytes, Bytes>, key: Bytes)
    requires key in values
    ensures values[key := values[key]] == values
  {
  }

  /** The menu rendered for the base shows its items alone and is the same afterwards but for its browse flags. */
  lemma BaseMenu(m: MenuV, titles: Titles)
    requires MenuReady(m, titles) && MRenderOut(m, titles, 0).Rendered?
    ensures FirstUntitled(m.items, titles) == |m.items|
    ensures MRenderOut(m, titles, 0).text == TextOf(m.items, m.sep, titles)
    ensures var m' := MRenderState(m, titles, 0);
      && m'.items == m.items && m'.sep == m.sep && m'.browse == m.browse
      && (m'.canNext ==> m.browse.NextAvailable) && (m'.canPrevious ==> m.browse.PreviousAvailable)
  {
    assert BrowseItems(m, 0) == [];
    assert m.items + [] == m.items;
    hide TextOf;
  }

  /** The template text of the base is the template executed with the empty sink. */
  lemma BaseTemplate(p: PageV, rs: Resource, sym: Bytes, sp: SplitV)
    requires Ready(p, rs, sp) && PlainPage(p, rs, sym)
    ensures var text := Execute(Pieces(p, rs, sym), sp.noSink);
      TemplateText(WithCursors(p, [0]), rs, sym, sp.noSink, 0) ==
        if text.None? then Fail(MissingKey) else Done(text.value)
  {
    hide Composed, Compile, Execute, PageAt;
    var sizer := WithCursors(p, [0]).sizer.value;
    assert sizer.crsrs == [0];
    EmptyPage(sp.noSink[sp.sink]);
    SameValue(sp.noSink, sp.sink);
    assert GetAtV(sizer, sp.noSink, 0) == Values(sp.noSink);
  }

  lemma BaseIs(p: PageV, rs: Resource, sym: Bytes, sp: SplitV)
    requires Ready(p, rs, sp) && PlainPage(p, rs, sym) && Base(p, rs, sym, sp).Done?
    ensures var text := Execute(Pieces(p, rs, sym), sp.noSink);
      && text.Some?
      && |Base(p, rs, sym, sp).value| == |text.value| +
           (if p.menu.None? then 0 else MenuSpace(TextOf(p.menu.value.items, p.menu.value.sep, rs.title)))
      && (p.menu.Some? ==> MRenderOut(p.menu.value, rs.title, 0).Rendered?)
  {
    BaseTemplate(p, rs, sym, sp);
    if p.menu.Some? && MRenderOut(p.menu.value, rs.title, 0).Rendered? {
      BaseMenu(p.menu.value, rs.title);
    }
    hide TemplateText, Composed, Compile, Execute, MRenderOut, MRenderState, TextOf;
  }

  /** A packing whose pages can be read back: clean items, and counters below their widths. */
  ghost predicate Readable(k: Packing) {
    && k.Packed? && AllOpened(k) && |k.full| < 0xFFFF
    && Clean(k.page) && (forall j :: 0 <= j < |k.full| ==> Clean(k.full[j]))
    && |ClosedText(k.full)| < 0x1_0000_0000
  }

  lemma ReadableIs(k: Packing, i: nat)
    requires Readable(k) && i < |Pages(k)|
    ensures |Cursors(k)| == |k.full| + 1 && i < Wrap16(|Cursors(k)|) == |Cursors(k)|
    ensures Cursors(k)[i] <= |SunkText(k)| && PageAt(SunkText(k), Cursors(k)[i]) == Chunk(Pages(k)[i])
    ensures |Chunk(Pages(k)[i])| == |PageText(Pages(k)[i])|
    ensures SunkCount(k) == |Pages(k)|
  {
    ReadableCounts(k, i);
    ReadablePage(k, i);
    SameLength(Pages(k)[i]);
    hide *;
  }

  lemma ReadableCounts(k: Packing, i: nat)
    requires Readable(k) && i < |Pages(k)|
    ensures |Cursors(k)| == |k.full| + 1 && i < Wrap16(|Cursors(k)|) == |Cursors(k)|
    ensures SunkCount(k) == |Pages(k)|
  {
    hide AllOpened, Clean, ClosedText;
  }

  lemma ReadablePage(k: Packing, i: nat)
    requires Readable(k) && i < |Pages(k)|
    ensures i < |Cursors(k)|
    ensures Cursors(k)[i] <= |SunkText(k)| && PageAt(SunkText(k), Cursors(k)[i]) == Chunk(Pages(k)[i])
  {
    hide PageAt, Chunk, ClosedText, SunkText, PageText, AllOpened, Clean;
    PageReads(k, i);
  }

  lemma SameLength(p: seq<Bytes>)
    ensures |Chunk(p)| == |PageText(p)|
  {
    JoinLength(p, LF);
    JoinLength(p, NUL);
  }

  /** GetAt replaces the flattened content by the items of page `i`. */
  lemma GetPage(sizer: SizerV, values: map<Bytes, Bytes>, k: Packing, i: u16)
    requires Readable(k) && i < |Pages(k)|
    requires sizer.sink != [] && sizer.sink in values && sizer.crsrs == Cursors(k)
    ensures GetAtV(sizer, values[sizer.sink := SunkText(k)], i) == Values(values[sizer.sink := Chunk(Pages(k)[i])])
  {
    hide Readable, PageAt, SunkText, Chunk, Cursors, Pages, Wrap16;
    ReadableIs(k, i);
    ReadablePacked(k);
    PutOver(values, sizer.sink, SunkText(k), Chunk(Pages(k)[i]));
  }

  lemma ReadablePacked(k: Packing)
    requires Readable(k)
    ensures k.Packed?
  {
  }

  lemma PutOver(values: map<Bytes, Bytes>, key: Bytes, a: Bytes, b: Bytes)
    ensures values[key := a][key := b] == values[key := b] && values[key := a][key] == a
  {
  }

  /** The page that FillState leaves behind, as far as rendering is concerned. */
  predicate Filled(p: PageV, rs: Resource, k: Packing, p': PageV)
    requires k.Packed? && p.sizer.Some?
  {
    && p'.extra == p.extra && p'.err == p.err
    && p'.sizer == Some(p.sizer.value.(crsrs := Cursors(k)))
    && p'.menu == if p.menu.None? then None else Some(PagedMenu(p.menu.value, rs.title, SunkCount(k)))
  }

  /** The template text of page `i` shows the page's items, one a line, at the sink's placeholder, and is that much longer than the base's. */
  lemma {:induction false} PageTemplate(p: PageV, rs: Resource, sym: Bytes, sp: SplitV, k: Packing, i: u16, p': PageV)
    requires Ready(p, rs, sp) && OnePlaceholder(p, rs, sym, sp.sink)
    requires Readable(k) && i < |Pages(k)| && Filled(p, rs, k, p')
    requires Execute(Pieces(p, rs, sym), sp.noSink).Some?
    ensures var out := TemplateText(p', rs, sym, sp.noSink[sp.sink := SunkText(k)], i);
      && out.Done? && Some(out.value) == Execute(Pieces(p, rs, sym), sp.noSink[sp.sink := Chunk(Pages(k)[i])])
      && |out.value| == |Execute(Pieces(p, rs, sym), sp.noSink).value| + |PageText(Pages(k)[i])|
  {
    var t := Pieces(p, rs, sym);
    var chunk := Chunk(Pages(k)[i]);
    ReadableIs(k, i);
    GetPage(p'.sizer.value, sp.noSink, k, i);
    ExecuteFilled(t, sp.noSink, sp.sink, chunk);
    ExtraOnce(t, sp.sink, |chunk|);
    hide Composed, Compile, Execute, PageAt, SunkText, Chunk, Readable, GetAtV, Pages, Cursors, PageText, MenuReady, PagedMenu,
      Extra;
  }

  /**
   What page `i` shows: the template with the items of the page at the sink's placeholder, one a line, and under it
   the menu items and the browse lines of the page.
   */
  function TextOfPage(p: PageV, rs: Resource, sym: Bytes, sp: SplitV, k: Packing, i: u16): Bytes
    requires Ready(p, rs, sp) && PlainPage(p, rs, sym) && Execute(Pieces(p, rs, sym), sp.noSink).Some?
    requires k.Packed? && i < |Pages(k)|
  {
    var text := Execute(Pieces(p, rs, sym), sp.noSink[sp.sink := Chunk(Pages(k)[i])]).value;
    if p.menu.None? then text
    else
      var m := PagedMenu(p.menu.value, rs.title, SunkCount(k));
      var lines := TextOf(m.items + BrowseItems(m, i), m.sep, rs.title);
      if lines == [] then text else text + [LF] + lines
  }

  /**
   The text of a page before its size is checked, and its size: what the page takes without its sink, the
   items of the page and the browse lines shown on it.
   */
  lemma {:induction false} PageSize(p: PageV, rs: Resource, sym: Bytes, sp: SplitV, k: Packing, i: u16, p': PageV)
    requires Ready(p, rs, sp) && OnePlaceholder(p, rs, sym, sp.sink) && Base(p, rs, sym, sp).Done?
    requires Readable(k) && i < |Pages(k)| && Filled(p, rs, k, p')
    ensures Execute(Pieces(p, rs, sym), sp.noSink).Some?
    ensures var text := TextOfPage(p, rs, sym, sp, k, i);
      && RenderOut(p', rs, sym, sp.noSink[sp.sink := SunkText(k)], i) == Checked(p'.sizer, text)
      && |text| == |Base(p, rs, sym, sp).value| + |PageText(Pages(k)[i])| + ShownBytes(p, rs, SunkCount(k), i)
  {
    var values := sp.noSink[sp.sink := SunkText(k)];
    BaseIs(p, rs, sym, sp);
    ReadableIs(k, i);
    PageTemplate(p, rs, sym, sp, k, i, p');
    var text := TemplateText(p', rs, sym, values, i).value;
    if p.menu.Some? {
      PageMenu(p.menu.value, rs.title, SunkCount(k), i);
    }
    hide TemplateText, Composed, Compile, Execute, MRenderOut, MRenderState, TextOf, SunkText, BrowseBytes, Readable, Base,
      PagedMenu, MenuReady, PageText, Pages, Cursors, Checked;
  }

  /** The menu of page `i`: the items of the base and the browse lines of the page. */
  lemma PageMenu(m: MenuV, titles: Titles, count: u16, i: u16)
    requires MenuReady(m, titles) && MRenderOut(m, titles, 0).Rendered? && i < count
    ensures var m' := PagedMenu(m, titles, count);
      && MRenderOut(m', titles, i) == Rendered(TextOf(m'.items + BrowseItems(m', i), m'.sep, titles))
      && MenuSpace(TextOf(m'.items + BrowseItems(m', i), m'.sep, titles)) ==
           MenuSpace(TextOf(m.items, m.sep, titles)) + BrowseBytes(m', titles, i)
  {
    BaseMenu(m, titles);
    MenuPage(PagedMenu(m, titles, count), titles, i);
    hide MRenderOut, MRenderState, TextOf, BrowseBytes, MenuSpace, BrowseItems;
  }

  // ----- every page -----

  /** The packing that FillOut makes, once the base is within the limit. */
  function PackingFor(p: PageV, rs: Resource, sym: Bytes, sp: SplitV): Packing
    requires sp.SplitDone? && p.sizer.Some? && Base(p, rs, sym, sp).Done?
    requires CheckV(p.sizer.value.outputSize, Base(p, rs, sym, sp).value).Some?
  {
    PackingOf(p, CheckV(p.sizer.value.outputSize, Base(p, rs, sym, sp).value).value, sp.items)
  }

  /** The base leaves room, and its size is counted exactly. */
  predicate BaseFits(p: PageV, rs: Resource, sym: Bytes, sp: SplitV)
    requires sp.SplitDone? && p.sizer.Some?
  {
    Base(p, rs, sym, sp).Done? && |Base(p, rs, sym, sp).value| <= p.sizer.value.outputSize
  }

  function Remaining(p: PageV, rs: Resource, sym: Bytes, sp: SplitV): u32
    requires sp.SplitDone? && p.sizer.Some? && BaseFits(p, rs, sym, sp)
  {
    p.sizer.value.outputSize - |Base(p, rs, sym, sp).value|
  }

  /** Filling succeeds exactly when packing does. */
  lemma {:induction false} FillDone(p: PageV, rs: Resource, sym: Bytes, sp: SplitV)
    requires Ready(p, rs, sp) && BaseFits(p, rs, sym, sp)
    ensures FillOut(p, rs, sym, sp).Done? <==> PackingOf(p, Remaining(p, rs, sym, sp), sp.items).Packed?
  {
    hide RenderOut, PackingOf, SunkText, MenuReady, CheckV;
    CheckFits(p.sizer.value.outputSize, Base(p, rs, sym, sp).value);
  }

  lemma {:induction false} FillResult(p: PageV, rs: Resource, sym: Bytes, sp: SplitV, aliased: bool)
    requires Ready(p, rs, sp) && BaseFits(p, rs, sym, sp) && FillOut(p, rs, sym, sp).Done?
    ensures var k := PackingOf(p, Remaining(p, rs, sym, sp), sp.items);
      && k.Packed? && FillOut(p, rs, sym, sp).value == sp.noSink[sp.sink := SunkText(k)]
      && Filled(p, rs, k, FillState(p, rs, sym, sp, aliased))
  {
    hide RenderOut, MRenderState, PackingOf, SunkText, SunkCount, ClosedCursors, TemplateText, MenuReady, CheckV;
    CheckFits(p.sizer.value.outputSize, Base(p, rs, sym, sp).value);
    BaseTemplateDone(p, rs, sym, sp);
    var p1 := WithCursors(p, [0]);
    assert p1.sizer.value.crsrs == [0];
  }

  lemma CheckFits(outputSize: u32, s: Bytes)
    requires 0 < outputSize && |s| <= outputSize
    ensures CheckV(outputSize, s) == Some(outputSize - |s|)
  {
  }

  lemma BaseTemplateDone(p: PageV, rs: Resource, sym: Bytes, sp: SplitV)
    requires sp.SplitDone? && p.sizer.Some? && Base(p, rs, sym, sp).Done?
    ensures TemplateText(WithCursors(p, [0]), rs, sym, sp.noSink, 0).Done?
  {
    hide TemplateText, MRenderOut, Checked;
  }

  /**
   Exactly when a page renders: its items and the browse lines shown on it fit into what the page
   leaves free.
   */
  lemma {:induction false} PageRendersIff(p: PageV, rs: Resource, sym: Bytes, sp: SplitV, i: u16, aliased: bool)
    requires Ready(p, rs, sp) && OnePlaceholder(p, rs, sym, sp.sink) && BaseFits(p, rs, sym, sp)
    requires FillOut(p, rs, sym, sp).Done?
    requires var k := PackingOf(p, Remaining(p, rs, sym, sp), sp.items);
      && Readable(k) && i < |Pages(k)|
      && |Base(p, rs, sym, sp).value| + |PageText(Pages(k)[i])| + ShownBytes(p, rs, SunkCount(k), i) < 0x1_0000_0000
    ensures Execute(Pieces(p, rs, sym), sp.noSink).Some?
    ensures var k := PackingOf(p, Remaining(p, rs, sym, sp), sp.items);
      var out := RenderOut(FillState(p, rs, sym, sp, aliased), rs, sym, FillOut(p, rs, sym, sp).value, i);
      var used := |PageText(Pages(k)[i])| + ShownBytes(p, rs, SunkCount(k), i);
      var text := TextOfPage(p, rs, sym, sp, k, i);
      && |text| == |Base(p, rs, sym, sp).value| + used
      && out == if used <= Remaining(p, rs, sym, sp) then Done(text) else Fail(LimitExceeded)
  {
    var k := PackingOf(p, Remaining(p, rs, sym, sp), sp.items);
    var p' := FillState(p, rs, sym, sp, aliased);
    FillResult(p, rs, sym, sp, aliased);
    PageSize(p, rs, sym, sp, k, i, p');
    CheckedIs(p'.sizer.value);
    hide RenderOut, FillState, FillOut, PackingOf, SunkText, Readable, Checked, PageText, Pages, ShownBytes, Base,
      MenuReady, TextOfPage, PlainPage, Pieces, Execute, Occurrences;
  }

  lemma CheckedIs(s: SizerV)
    requires s.outputSize > 0
    ensures forall text :: |text| < 0x1_0000_0000 ==>
      Checked(Some(s), text) == if |text| <= s.outputSize then Done(text) else Fail(LimitExceeded)
  {
  }

  // ----- the reservation -----

  /** What is reserved: the bytes of each browse line that is available, by selector, a colon and its label; nothing without a menu. */
  lemma ReservedAre(p: PageV)
    ensures
      var r := ReservedSizes(p);
      if p.menu.None? then r.next == 0 && r.previous == 0
      else
        var b := p.menu.value.browse;
        && r.next == (if b.NextAvailable then (|b.NextSelector| + 1 + |b.NextTitle|) % 0x1_0000_0000 else 0)
        && r.previous == (if b.PreviousAvailable then (|b.PreviousSelector| + 1 + |b.PreviousTitle|) % 0x1_0000_0000 else 0)
  {
  }

  /** The browse lines as shown are no longer than the lines measured for them. */
  predicate LinesMeasured(p: PageV, rs: Resource) {
    p.menu.Some? ==>
      var m := p.menu.value;
      && (m.browse.NextAvailable ==> |LineOf(NextItem(m.browse), m.sep, rs.title)| <= ReservedSizes(p).next)
      && (m.browse.PreviousAvailable ==> |LineOf(PreviousItem(m.browse), m.sep, rs.title)| <= ReservedSizes(p).previous)
  }

  /** The reservation for browse lines leaves each page at least one byte, so that no `uint32` subtraction wraps. */
  predicate Roomy(p: PageV, remaining: u32, n: nat) {
    if n > 1 then ReservedSizes(p).next + ReservedSizes(p).previous + 4 <= remaining else 2 <= remaining
  }

  /** The items as Split makes them, in number and size below the widths they are counted in. */
  predicate Countable(items: seq<Bytes>) {
    Clean(items) && |items| < 0xFFFF && Total(items) + |items| < 0x1_0000_0000
  }

  /** The sink items all fit a later page. */
  predicate ItemsFit(p: PageV, remaining: u32, items: seq<Bytes>) {
    |items| > 1 ==> forall i :: 0 <= i < |items| ==>
      |items[i]| + ReservedSizes(p).next + ReservedSizes(p).previous + 3 <= remaining
  }

  lemma ShownAtMost(p: PageV, rs: Resource, count: u16, i: u16)
    requires p.menu.Some? ==> MenuReady(p.menu.value, rs.title) && MRenderOut(p.menu.value, rs.title, 0).Rendered?
    requires LinesMeasured(p, rs) && i < count
    ensures ShownBytes(p, rs, count, i) <=
      (if i < count - 1 then ReservedSizes(p).next + 1 else 0) + (if i > 0 then ReservedSizes(p).previous + 1 else 0)
  {
    if p.menu.Some? {
      BaseMenu(p.menu.value, rs.title);
      hide MRenderOut, MRenderState, MSizes;
    }
  }

  lemma NetIs(p: PageV, remaining: u32, n: nat)
    requires Roomy(p, remaining, n)
    ensures FirstNet(remaining, n, ReservedSizes(p).next) ==
      remaining - 1 - (if n > 1 then ReservedSizes(p).next + 1 else 0)
  {
  }

  lemma {:induction false} PackingReadable(items: seq<Bytes>, net: u32, previous: u32)
    requires Countable(items) && Budgeted(items, net, previous) && Pack(items, net, previous).Packed?
    ensures Readable(Pack(items, net, previous))
    ensures items == [] || |Pages(Pack(items, net, previous))| <= |items|
  {
    hide Pack, ClosedText, Total, Flatten, Clean, EmptyOpens, AllFit, Keeps, Budgeted, PageText;
    var k := Pack(items, net, previous);
    PackShape(items, net, previous);
    PackClean(items, net, previous);
    PackFits(items, net, previous);
    NothingLost(items, net, previous);
    KeptSizes(items, Flatten(Pages(k)), EmptyOpens(items, net, previous));
    FullTextSize(k);
  }

  /** The closed pages take no more bytes than the items and a byte each. */
  lemma {:induction false} FullTextSize(k: Packing)
    requires k.Packed? && AllOpened(k)
    ensures |ClosedText(k.full)| <= Total(Flatten(Pages(k))) + |Flatten(Pages(k))|
  {
    hide ClosedText, Flatten, Total;
    ClosedTextSize(k.full);
    FlattenPages(k);
    TotalAppend(Flatten(k.full), k.page);
  }

  /** The sums of the reservation: a page within its budget and its browse lines fit the room left by the base. */
  lemma BudgetCoversBrowse(p: PageV, rs: Resource, remaining: u32, items: seq<Bytes>, i: u16)
    requires p.menu.Some? ==> MenuReady(p.menu.value, rs.title) && MRenderOut(p.menu.value, rs.title, 0).Rendered?
    requires LinesMeasured(p, rs) && Countable(items) && Roomy(p, remaining, |items|) && ItemsFit(p, remaining, items)
    requires PackingOf(p, remaining, items).Packed? && i < |Pages(PackingOf(p, remaining, items))|
    ensures var k := PackingOf(p, remaining, items);
      && Readable(k)
      && |PageText(Pages(k)[i])| + ShownBytes(p, rs, SunkCount(k), i) <= remaining
  {
    var sizes, n := ReservedSizes(p), |items|;
    var net := FirstNet(remaining, n, sizes.next);
    var k := PackingOf(p, remaining, items);
    NetIs(p, remaining, n);
    assert Budgeted(items, net, sizes.previous);
    assert n > 1 ==> forall j :: 0 <= j < n ==> |items[j]| <= Budget(1, net, sizes.previous);
    hide Countable, LinesMeasured, ItemsFit, Clean, FirstNet, MenuReady, MRenderOut, ShownBytes, PageText, Pack,
      Total, Readable;
    PackingReadable(items, net, sizes.previous);
    PagesWithinBudget(items, net, sizes.previous);
    ReadableCounts(k, i);
    ShownAtMost(p, rs, SunkCount(k), i);
  }

  /**
   The reservation is sound: when the base fits, the browse lines are no longer than measured and no item
   is larger than a later page, every page of the packing renders, as it is meant to, within the output limit.
   */
  lemma {:induction false} EveryPageRenders(p: PageV, rs: Resource, sym: Bytes, sp: SplitV, i: u16, aliased: bool)
    requires Ready(p, rs, sp) && OnePlaceholder(p, rs, sym, sp.sink) && BaseFits(p, rs, sym, sp)
    requires LinesMeasured(p, rs) && Countable(sp.items)
    requires Roomy(p, Remaining(p, rs, sym, sp), |sp.items|) && ItemsFit(p, Remaining(p, rs, sym, sp), sp.items)
    requires var k := PackingOf(p, Remaining(p, rs, sym, sp), sp.items); k.Packed? && i < |Pages(k)|
    ensures FillOut(p, rs, sym, sp).Done? && Execute(Pieces(p, rs, sym), sp.noSink).Some? &&
      var text := TextOfPage(p, rs, sym, sp, PackingOf(p, Remaining(p, rs, sym, sp), sp.items), i);
      && RenderOut(FillState(p, rs, sym, sp, aliased), rs, sym, FillOut(p, rs, sym, sp).value, i) == Done(text)
      && |text| <= p.sizer.value.outputSize
  {
    FillDone(p, rs, sym, sp);
    BaseIs(p, rs, sym, sp);
    BudgetCoversBrowse(p, rs, Remaining(p, rs, sym, sp), sp.items, i);
    PageRendersIff(p, rs, sym, sp, i, aliased);
    hide RenderOut, FillState, FillOut, PackingOf, Readable, PageText, Pages, ShownBytes, Base, MenuReady,
      LinesMeasured, Countable, Roomy, ItemsFit, Ready, TextOfPage, PlainPage, Pieces, Execute, Occurrences;
  }

  // ----- from the page as mapped -----

  /** A page reset, mapped and given its menu: the sizer knows the mapped sink, if there is one. */
  ghost predicate MappedReady(p: PageV, sizes: map<Bytes, u16>, rs: Resource, sp: SplitV) {
    && Splits(p.values, sizes, sp) && sp.SplitDone?
    && p.sizer.Some? && p.sizer.value.outputSize > 0 && p.sizer.value.crsrs == []
    && (p.menu.Some? ==> MenuReady(p.menu.value, rs.title))
    && if p.menu.Some? && p.menu.value.sink then sp.sink == [] else sp.sink != [] && p.sizer.value.sink == sp.sink
  }

  /** Both kinds of sink leave the page ready to be filled. */
  lemma StagedReady(p: PageV, sizes: map<Bytes, u16>, rs: Resource, sp: SplitV)
    requires MappedReady(p, sizes, rs, sp)
    ensures MenuStageOut(p, rs, sp).Done? ==> Ready(MenuStageState(p, rs, sp), rs, MenuStageOut(p, rs, sp).value)
  {
    if p.menu.Some? && p.menu.value.sink && MRenderOut(DisposedMenu(p.menu.value), rs.title, 0).Rendered? {
      DisposedReady(p.menu.value, rs.title);
      hide MRenderOut, MRenderState, DisposedMenu;
    }
  }

  lemma DisposedReady(m: MenuV, titles: Titles)
    requires MenuReady(m, titles) && MRenderOut(DisposedMenu(m), titles, 0).Rendered?
    ensures MenuReady(MRenderState(DisposedMenu(m), titles, 0), titles)
  {
  }

  /**
   Items without blank lines that fit a later page are packed, and so is a single line that fits the page. (A
   line behind a lost blank one has to stay below the budget: PackFailsIff.)
   */
  lemma {:induction false} FittingItemsPack(p: PageV, remaining: u32, items: seq<Bytes>)
    requires items != [] && Countable(items) && Roomy(p, remaining, |items|) && ItemsFit(p, remaining, items)
    requires if |items| == 1 then |items[0]| + 2 <= remaining else forall i :: 0 <= i < |items| ==> items[i] != []
    ensures PackingOf(p, remaining, items).Packed?
  {
    hide Clean, Pack, MSizes;
    var sizes, n := ReservedSizes(p), |items|;
    var net := FirstNet(remaining, n, sizes.next);
    NetIs(p, remaining, n);
    if n == 1 {
      OneItemPacks(items, net, sizes.previous);
    } else {
      FirstItemDecides(items, net, sizes.previous);
    }
  }

  lemma OneItemPacks(items: seq<Bytes>, net: u32, previous: u32)
    requires |items| == 1 && Budgeted(items, net, previous) && |items[0]| < net
    ensures Pack(items, net, previous).Packed?
  {
    PackFailsIff(items, net, previous);
    assert items[..0] == [];
  }

  /**
   Page.Render of any page of a paged sink, mapped or menu, for every split of the values. Under the conditions of the reservation preparing
   succeeds exactly when packing does, and then every page of the packing renders within the limit.
   */
  lemma {:induction false} RenderWithinLimit(p: PageV, sizes: map<Bytes, u16>, rs: Resource, sp: SplitV, sym: Bytes, i: u16)
    requires MappedReady(p, sizes, rs, sp)
    requires MenuStageOut(p, rs, sp).Done?
    requires var p', sp' := MenuStageState(p, rs, sp), MenuStageOut(p, rs, sp).value;
      && OnePlaceholder(p', rs, sym, sp'.sink) && BaseFits(p', rs, sym, sp') && LinesMeasured(p', rs)
      && Countable(sp'.items)
      && Roomy(p', Remaining(p', rs, sym, sp'), |sp'.items|)
      && ItemsFit(p', Remaining(p', rs, sym, sp'), sp'.items)
    ensures var p', sp' := MenuStageState(p, rs, sp), MenuStageOut(p, rs, sp).value;
      var k := PackingOf(p', Remaining(p', rs, sym, sp'), sp'.items);
      && (PrepareOut(p, sp, rs, sym).Done? <==> k.Packed?)
      && Execute(Pieces(p', rs, sym), sp'.noSink).Some?
      && (k.Packed? && i < |Pages(k)| ==>
            var text := TextOfPage(p', rs, sym, sp', k, i);
            PageOut(p, sp, rs, sym, i) == Done(text) && |text| <= p.sizer.value.outputSize)
  {
    hide MenuStageOut, FillOut, FillState, RenderOut, Splits, Base, PackingOf, Pages, Roomy, ItemsFit, Countable,
      LinesMeasured, Ready, MenuReady, TextOfPage, PlainPage, Pieces, Execute, Occurrences;
    StagedReady(p, sizes, rs, sp);
    var p', sp' := MenuStageState(p, rs, sp), MenuStageOut(p, rs, sp).value;
    BaseIs(p', rs, sym, sp');
    FillDone(p', rs, sym, sp');
    var k := PackingOf(p', Remaining(p', rs, sym, sp'), sp'.items);
    if k.Packed? && i < |Pages(k)| {
      EveryPageRenders(p', rs, sym, sp', i, sp.sink == []);
    }
  }

  // ----- where the promise ends -----

  /**
   Reading one page past the last. Normally the index is refused. When the last item is empty and opened
   a page, that page is not counted but its cursor stays, one byte past the trimmed content: reading it
   slices out of range.
   */
  lemma {:induction false} PastTheLastPage(sizer: SizerV, values: map<Bytes, Bytes>, k: Packing)
    requires Readable(k) && |Pages(k)| >= 1
    requires sizer.sink != [] && sizer.sink in values && sizer.crsrs == Cursors(k)
    ensures GetAtV(sizer, values[sizer.sink := SunkText(k)], |Pages(k)|) == if k.page == [] then Panic else NoMore
  {
    hide PageAt, SunkText, ClosedText, Cursors, Readable;
    PastCursor(k);
  }

  lemma {:induction false} PastCursor(k: Packing)
    requires Readable(k) && |Pages(k)| >= 1
    ensures |Cursors(k)| == |k.full| + 1 && Wrap16(|Cursors(k)|) == |Cursors(k)|
    ensures if k.page == [] then |Pages(k)| == |k.full| && Cursors(k)[|k.full|] as int == |SunkText(k)| + 1
            else |Pages(k)| == |k.full| + 1
  {
    hide Clean, AllOpened, TrimLF;
    var n := |k.full|;
    if k.page == [] {
      assert k.full[..n] == k.full;
      CursorIs(k, n);
      SunkTextIs(k);
      WrapSmall(|ClosedText(k.full)|);
      assert |SunkText(k)| + 1 == |ClosedText(k.full)|;
    }
  }
}
