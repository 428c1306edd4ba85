/** When rendering reports that the page asked for is beyond the pages of the menu. */
module BrowseErrors {
  import opened Common
  import opened Menus
  import opened Sizing
  import opened Paging
  import opened PagingProofs
  import opened Resources
  import opened Templates
  import opened Rendering
  import opened PageProofs

  /** The error that Vm.Render answers with a move to the catch node. */
  predicate IsBrowseError(out: Outcome<Bytes>) {
    out.Fail? && out.fault.MenuFault? && out.fault.out.OutOfRange?
  }

  // ----- faults of the parts -----

  /** The first page is in range of every menu. */
  lemma FirstInRange(m: MenuV, titles: Titles)
    ensures !MRenderOut(m, titles, 0).OutOfRange?
  {
  }

  lemma FirstPageIsNoBrowseError(p: PageV, rs: Resource, sym: Bytes, values: map<Bytes, Bytes>)
    ensures !IsBrowseError(RenderOut(p, rs, sym, values, 0))
  {
    hide TemplateText, MRenderOut, Checked;
    TemplateFaults(p, rs, sym, values, 0);
    if p.menu.Some? {
      FirstInRange(p.menu.value, rs.title);
    }
    CheckedFaults(p.sizer);
  }

  lemma TemplateFaults(p: PageV, rs: Resource, sym: Bytes, values: map<Bytes, Bytes>, idx: u16)
    ensures TemplateText(p, rs, sym, values, idx).Fail? ==> !TemplateText(p, rs, sym, values, idx).fault.MenuFault?
    ensures TemplateText(p, rs, sym, values, idx).Done? ==> PagedValues(p.sizer, values, idx).Done?
  {
    hide Execute, Compile, Composed, GetAtV;
  }

  lemma CheckedFaults(sizer: Option<SizerV>)
    ensures forall text :: Checked(sizer, text).Fail? ==> !Checked(sizer, text).fault.MenuFault?
  {
  }

  lemma RenderFaults(p: PageV, rs: Resource, sym: Bytes, values: map<Bytes, Bytes>, idx: u16)
    ensures IsBrowseError(RenderOut(p, rs, sym, values, idx)) ==>
      if TemplateText(p, rs, sym, values, idx).Done? then p.menu.Some? && MRenderOut(p.menu.value, rs.title, idx).OutOfRange?
      else TemplateText(p, rs, sym, values, idx).Fail? && TemplateText(p, rs, sym, values, idx).fault.MenuFault?
  {
    hide TemplateText, MRenderOut, Checked;
    CheckedFaults(p.sizer);
  }

  /** Measuring the page without its sink reports no browse error. */
  lemma {:induction false} FillFaults(p: PageV, rs: Resource, sym: Bytes, sp: SplitV)
    requires sp.SplitDone? && p.sizer.Some?
    ensures var out := FillOut(p, rs, sym, sp);
      out.Fail? && out.fault.MenuFault? ==> !out.fault.out.OutOfRange?
  {
    hide RenderOut, PackingOf, CheckV, SunkText;
    FirstPageIsNoBrowseError(WithCursors(p, [0]), rs, sym, sp.noSink);
  }

  /** Staging a menu as sink reports none either. */
  lemma StageFaults(p: PageV, rs: Resource, sp: SplitV)
    requires sp.SplitDone?
    ensures var out := MenuStageOut(p, rs, sp);
      out.Fail? && out.fault.MenuFault? ==> !out.fault.out.OutOfRange?
  {
    hide MRenderOut, MRenderState;
    if p.menu.Some? {
      FirstInRange(DisposedMenu(p.menu.value), rs.title);
    }
  }

  lemma PrepareFaults(p: PageV, sp: SplitV, rs: Resource, sym: Bytes)
    ensures var out := PrepareOut(p, sp, rs, sym);
      out.Fail? && out.fault.MenuFault? ==> !out.fault.out.OutOfRange?
  {
    hide FillOut, FillState, MenuStageOut, MenuStageState;
    if sp.SplitDone? {
      StageFaults(p, rs, sp);
      if p.sizer.Some? && MenuStageOut(p, rs, sp).Done? {
        FillFaults(MenuStageState(p, rs, sp), rs, sym, MenuStageOut(p, rs, sp).value);
      }
    }
  }

  // ----- what preparing has made -----

  /** Preparing has come to its end, with a packing. */
  predicate Prepared(p: PageV, sp: SplitV, rs: Resource, sym: Bytes) {
    p.sizer.Some? && PrepareOut(p, sp, rs, sym).Done?
  }

  /** The page and the split as filled, with the menu staged if it is the sink. */
  function Staged(p: PageV, sp: SplitV, rs: Resource, sym: Bytes): (r: (PageV, SplitV))
    requires Prepared(p, sp, rs, sym)
    ensures r.0.sizer.Some? && r.1.SplitDone? && FillOut(r.0, rs, sym, r.1).Done?
  {
    (MenuStageState(p, rs, sp), MenuStageOut(p, rs, sp).value)
  }

  /** The packing that a successful fill makes. */
  function PackedBy(p: PageV, rs: Resource, sym: Bytes, sp: SplitV): Packing
    requires sp.SplitDone? && p.sizer.Some? && FillOut(p, rs, sym, sp).Done?
  {
    var s := RenderOut(WithCursors(p, [0]), rs, sym, sp.noSink, 0);
    PackingOf(p, CheckV(p.sizer.value.outputSize, s.value).value, sp.items)
  }

  function PackingMade(p: PageV, sp: SplitV, rs: Resource, sym: Bytes): Packing
    requires Prepared(p, sp, rs, sym)
  {
    var staged := Staged(p, sp, rs, sym);
    PackedBy(staged.0, rs, sym, staged.1)
  }

  /** The symbol that is filled: the mapped sink, or the menu. */
  function SinkMade(p: PageV, sp: SplitV, rs: Resource, sym: Bytes): Bytes
    requires Prepared(p, sp, rs, sym)
  {
    Staged(p, sp, rs, sym).1.sink
  }

  lemma {:induction false} FilledState(p: PageV, rs: Resource, sym: Bytes, sp: SplitV, aliased: bool)
    requires sp.SplitDone? && p.sizer.Some? && FillOut(p, rs, sym, sp).Done?
    ensures var k, p' := PackedBy(p, rs, sym, sp), FillState(p, rs, sym, sp, aliased);
      && k.Packed? && FillOut(p, rs, sym, sp).value == sp.noSink[sp.sink := SunkText(k)]
      && p'.sizer == Some(p.sizer.value.(crsrs := p.sizer.value.crsrs + Cursors(k)))
      && p'.menu.Some? == p.menu.Some? && (p'.menu.Some? ==> p'.menu.value.pageCount == SunkCount(k))
      && p'.extra == p.extra && p'.err == p.err
      && p'.values == (if aliased then FillOut(p, rs, sym, sp).value else p.values)
  {
    hide RenderOut, MRenderState, TemplateText, PackingOf, SunkText, SunkCount, ClosedCursors, CheckV;
    var crsrs, closed := p.sizer.value.crsrs, ClosedCursors(PackedBy(p, rs, sym, sp).full);
    assert (crsrs + [0]) + closed == crsrs + ([0] + closed);
  }

  /**
   What a successful preparation leaves: the flattened sink among the values, one cursor more than pages were closed
   behind those already there, and the counted pages in the menu. The values mapped on the page stay, except that without a mapped
   sink they are the prepared ones.
   */
  lemma {:induction false} PreparedIs(p: PageV, sp: SplitV, rs: Resource, sym: Bytes)
    requires Prepared(p, sp, rs, sym)
    ensures var k, p', values := PackingMade(p, sp, rs, sym), PrepareState(p, sp, rs, sym), PrepareOut(p, sp, rs, sym).value;
      && k.Packed?
      && SinkMade(p, sp, rs, sym) in values && values[SinkMade(p, sp, rs, sym)] == SunkText(k)
      && p'.sizer == Some(Staged(p, sp, rs, sym).0.sizer.value.(crsrs := p.sizer.value.crsrs + Cursors(k)))
      && p'.menu.Some? == p.menu.Some? && (p'.menu.Some? ==> p'.menu.value.pageCount == SunkCount(k))
      && p'.err == p.err && p'.values == (if sp.sink == [] then values else p.values)
  {
    hide FillOut, FillState, MRenderOut, MRenderState, DisposedMenu, PackedBy, SunkText, SunkCount, Cursors;
    var staged := Staged(p, sp, rs, sym);
    FilledState(staged.0, rs, sym, staged.1, sp.sink == []);
  }

  // ----- exactly when -----

  /**
   Exactly when rendering a page is a browse error: the page is prepared, its index is not below the number of
   pages that the menu counts, and its template renders all the same.
   */
  lemma {:induction false} BrowseErrorIff(p: PageV, sp: SplitV, rs: Resource, sym: Bytes, idx: u16)
    ensures IsBrowseError(PageOut(p, sp, rs, sym, idx)) <==>
      && Prepared(p, sp, rs, sym) && p.menu.Some?
      && 0 < SunkCount(PackingMade(p, sp, rs, sym)) <= idx
      && TemplateText(PrepareState(p, sp, rs, sym), rs, sym, PrepareOut(p, sp, rs, sym).value, idx).Done?
  {
    hide PrepareOut, PrepareState, RenderOut, TemplateText, MRenderOut, PackingMade, SunkCount;
    PrepareFaults(p, sp, rs, sym);
    if PrepareOut(p, sp, rs, sym).Done? {
      var p', values := PrepareState(p, sp, rs, sym), PrepareOut(p, sp, rs, sym).value;
      RenderFaultIff(p', rs, sym, values, idx);
      if p.sizer.Some? {
        PreparedIs(p, sp, rs, sym);
      } else {
        NoSizer(p, sp, rs, sym, idx);
      }
    }
  }

  lemma RenderFaultIff(p: PageV, rs: Resource, sym: Bytes, values: map<Bytes, Bytes>, idx: u16)
    ensures IsBrowseError(RenderOut(p, rs, sym, values, idx)) <==>
      TemplateText(p, rs, sym, values, idx).Done? && p.menu.Some? && 0 < p.menu.value.pageCount <= idx
  {
    hide TemplateText, Checked;
    TemplateFaults(p, rs, sym, values, idx);
    CheckedFaults(p.sizer);
  }

  /** Without a sizer only the first page can be asked for. */
  lemma NoSizer(p: PageV, sp: SplitV, rs: Resource, sym: Bytes, idx: u16)
    requires p.sizer.None?
    ensures !IsBrowseError(PageOut(p, sp, rs, sym, idx))
  {
    hide RenderOut;
    if idx == 0 {
      FirstPageIsNoBrowseError(p, rs, sym, p.values);
    } else {
      TemplateFaults(p, rs, sym, p.values, idx);
      RenderFaultIff(p, rs, sym, p.values, idx);
    }
  }

  /** The sizer cuts a page out of the values, or has nothing to cut. */
  predicate Cuts(sizer: SizerV, values: map<Bytes, Bytes>, idx: u16) {
    sizer.sink == [] || sizer.sink !in values ||
    (idx < Wrap16(|sizer.crsrs|) && sizer.crsrs[idx] <= |values[sizer.sink]|)
  }

  lemma CutsIff(sizer: SizerV, values: map<Bytes, Bytes>, idx: u16)
    ensures GetAtV(sizer, values, idx).Values? <==> Cuts(sizer, values, idx)
    ensures GetAtV(sizer, values, idx).Values? ==> GetAtV(sizer, values, idx).values.Keys == values.Keys
  {
    Wrap16AtMost(|sizer.crsrs|);
  }

  /** The pages of a plain source: they have a template text exactly when there is something to cut. */
  lemma {:induction false} PlainTextIff(p: PageV, rs: Resource, sym: Bytes, values: map<Bytes, Bytes>, idx: u16)
    requires p.sizer.Some? && PlainPage(p, rs, sym) && Execute(Pieces(p, rs, sym), values).Some?
    ensures TemplateText(p, rs, sym, values, idx).Done? <==> Cuts(p.sizer.value, values, idx)
  {
    hide Compile, Composed, GetAtV, Cuts;
    CutsIff(p.sizer.value, values, idx);
    if GetAtV(p.sizer.value, values, idx).Values? {
      SameKeys(Pieces(p, rs, sym), values, GetAtV(p.sizer.value, values, idx).values);
    }
  }

  lemma SameKeys(t: Template, values: map<Bytes, Bytes>, other: map<Bytes, Bytes>)
    requires values.Keys == other.Keys && Execute(t, values).Some?
    ensures Execute(t, other).Some?
  {
  }

  /**
   For pages of a plain source: exactly when the sizer finds something to cut at an index that the menu does not
   count. That takes cursors left over, a sink that the sizer does not know, or counters that have wrapped.
   */
  lemma {:induction false} PlainBrowseErrorIff(p: PageV, sp: SplitV, rs: Resource, sym: Bytes, idx: u16)
    requires Prepared(p, sp, rs, sym) ==> PlainPage(Staged(p, sp, rs, sym).0, rs, sym)
    ensures IsBrowseError(PageOut(p, sp, rs, sym, idx)) <==>
      && Prepared(p, sp, rs, sym) && p.menu.Some?
      && 0 < SunkCount(PackingMade(p, sp, rs, sym)) <= idx
      && PackingMade(p, sp, rs, sym).Packed?
      && Cuts(Staged(p, sp, rs, sym).0.sizer.value.(crsrs := p.sizer.value.crsrs + Cursors(PackingMade(p, sp, rs, sym))),
              PrepareOut(p, sp, rs, sym).value, idx)
  {
    hide PrepareOut, PrepareState, PageOut, TemplateText, PackingMade, SunkCount, Cursors, PlainPage, Staged, Cuts, Pieces, Execute;
    BrowseErrorIff(p, sp, rs, sym, idx);
    if Prepared(p, sp, rs, sym) {
      PreparedIs(p, sp, rs, sym);
      PreparedText(p, sp, rs, sym);
      PlainTextIff(PrepareState(p, sp, rs, sym), rs, sym, PrepareOut(p, sp, rs, sym).value, idx);
    }
  }

  /** The prepared page has the source it was measured with, and values for all its placeholders. */
  lemma {:induction false} PreparedText(p: PageV, sp: SplitV, rs: Resource, sym: Bytes)
    requires Prepared(p, sp, rs, sym) && PlainPage(Staged(p, sp, rs, sym).0, rs, sym)
    ensures var p' := PrepareState(p, sp, rs, sym);
      PlainPage(p', rs, sym) && Execute(Pieces(p', rs, sym), PrepareOut(p, sp, rs, sym).value).Some?
  {
    hide FillOut, FillState, MRenderOut, MRenderState, DisposedMenu, PackedBy, SunkText, SunkCount, Cursors, Compile;
    var staged := Staged(p, sp, rs, sym);
    FilledState(staged.0, rs, sym, staged.1, sp.sink == []);
    MeasuredText(staged.0, rs, sym, staged.1);
  }

  lemma {:induction false} MeasuredText(p: PageV, rs: Resource, sym: Bytes, sp: SplitV)
    requires sp.SplitDone? && p.sizer.Some? && PlainPage(p, rs, sym) && FillOut(p, rs, sym, sp).Done?
    ensures Execute(Pieces(p, rs, sym), FillOut(p, rs, sym, sp).value).Some?
  {
    hide PackingOf, SunkText, CheckV, Compile, GetAtV, MRenderOut;
    var p1 := WithCursors(p, [0]);
    CutsIff(p1.sizer.value, sp.noSink, 0);
  }

  // ----- pages without cursors -----

  /** No cursors yet, and the sizer knows the mapped sink if there is one. */
  predicate Fresh(p: PageV, sp: SplitV) {
    p.sizer.Some? ==>
      && p.sizer.value.crsrs == []
      && (sp.SplitDone? && sp.sink != [] ==> p.sizer.value.sink == sp.sink)
  }

  /** The one index at which the counters of a packing can disagree: its last item was empty and opened a page. */
  predicate Wrapped(k: Packing, idx: u16)
    requires k.Packed?
  {
    && k.page == [] && 0 < Wrap16(|k.full|) == idx < 0xFFFF
    && (|k.full| >= 0x1_0000 || |ClosedText(k.full)| >= 0x1_0000_0000)
  }

  lemma WrapNext(n: nat)
    ensures Wrap16(n + 1) == if Wrap16(n) == 0xFFFF then 0 else Wrap16(n) + 1
    ensures n < 0x1_0000 ==> Wrap16(n) == n
    ensures Wrap16(n) <= n
  {
  }

  /** A page beyond those counted is cut out exactly at that index. */
  lemma {:induction false} UncountedCut(sizer: SizerV, values: map<Bytes, Bytes>, k: Packing, idx: u16)
    requires k.Packed? && AllOpened(k) && Clean(k.page) && forall j :: 0 <= j < |k.full| ==> Clean(k.full[j])
    requires sizer.sink != [] && sizer.sink in values && values[sizer.sink] == SunkText(k) && sizer.crsrs == Cursors(k)
    ensures 0 < SunkCount(k) <= idx && Cuts(sizer, values, idx) <==> Wrapped(k, idx)
  {
    hide AllOpened, Clean, ClosedText, SunkText, TrimLF, Wrap16, Cursors;
    var n := |k.full|;
    WrapNext(n);
    CursorCount(k);
    if k.page == [] && 0 < Wrap16(n) == idx < 0xFFFF {
      CursorWithin(k, idx);
    }
  }

  lemma CursorCount(k: Packing)
    requires k.Packed?
    ensures |Cursors(k)| == |k.full| + 1 && SunkCount(k) == Wrap16(if k.page == [] then |k.full| else |k.full| + 1)
  {
    hide ClosedText;
    assert k.page == [] ==> Pages(k) == k.full;
  }

  /** The cursor at the wrapped count points into the content, unless it is that of the end. */
  lemma {:induction false} CursorWithin(k: Packing, i: nat)
    requires k.Packed? && AllOpened(k) && Clean(k.page) && forall j :: 0 <= j < |k.full| ==> Clean(k.full[j])
    requires k.page == [] && 0 < i == Wrap16(|k.full|)
    ensures i < |Cursors(k)|
    ensures Cursors(k)[i] <= |SunkText(k)| <==> |k.full| >= 0x1_0000 || |ClosedText(k.full)| >= 0x1_0000_0000
  {
    hide Clean, AllOpened, TrimLF, PageText, ClosedText, SunkText, Wrap32;
    var n := |k.full|;
    WrapNext(n);
    CursorIs(k, i);
    LastTrimmed(k);
    WrapBelow(|ClosedText(k.full[..i])|);
    if i < n {
      ClosedAt(k.full, i);
    } else {
      assert k.full[..i] == k.full;
    }
  }

  lemma WrapBelow(n: nat)
    ensures Wrap32(n) <= n && (n < 0x1_0000_0000 ==> Wrap32(n) == n) && (n >= 0x1_0000_0000 ==> Wrap32(n) < n)
  {
  }

  /** With nothing on the open page the content ends before the last LF. */
  lemma LastTrimmed(k: Packing)
    requires k.Packed? && AllOpened(k) && Clean(k.page) && forall j :: 0 <= j < |k.full| ==> Clean(k.full[j])
    requires k.page == [] && k.full != []
    ensures |ClosedText(k.full)| == |SunkText(k)| + 1
  {
    SunkTextIs(k);
  }

  /**
   A page without cursors, whose sink the sizer knows: it is a browse error exactly when the last item is lost and the
   number of pages, or the length of the content, has wrapped.
   */
  lemma {:induction false} FreshBrowseErrorIff(p: PageV, sp: SplitV, rs: Resource, sym: Bytes, idx: u16)
    requires Fresh(p, sp) && (sp.SplitDone? ==> Clean(sp.items) && (sp.sink == [] ==> sp.items == []))
    requires Prepared(p, sp, rs, sym) ==> PlainPage(Staged(p, sp, rs, sym).0, rs, sym)
    ensures IsBrowseError(PageOut(p, sp, rs, sym, idx)) <==>
      && Prepared(p, sp, rs, sym) && p.menu.Some?
      && PackingMade(p, sp, rs, sym).Packed? && Wrapped(PackingMade(p, sp, rs, sym), idx)
  {
    hide *;
    PlainBrowseErrorIff(p, sp, rs, sym, idx);
    if Prepared(p, sp, rs, sym) {
      PreparedUncounted(p, sp, rs, sym, idx);
    }
  }

  lemma {:induction false} PreparedUncounted(p: PageV, sp: SplitV, rs: Resource, sym: Bytes, idx: u16)
    requires Fresh(p, sp) && (sp.SplitDone? ==> Clean(sp.items) && (sp.sink == [] ==> sp.items == []))
    requires Prepared(p, sp, rs, sym)
    ensures p.sizer.Some? && PrepareOut(p, sp, rs, sym).Done?
    ensures var k := PackingMade(p, sp, rs, sym);
      k.Packed? &&
      var sizer := Staged(p, sp, rs, sym).0.sizer.value.(crsrs := p.sizer.value.crsrs + Cursors(k));
      (0 < SunkCount(k) <= idx && Cuts(sizer, PrepareOut(p, sp, rs, sym).value, idx)) <==> Wrapped(k, idx)
  {
    hide PrepareOut, PrepareState, PackingMade, SunkCount, Cursors, Staged, SinkMade, Cuts, Wrapped, Clean, AllOpened, SunkText,
      Wrap16, ClosedText;
    PreparedSplits(p, sp, rs, sym);
    PreparedIs(p, sp, rs, sym);
    StagedSink(p, sp, rs, sym);
    MadeShape(p, sp, rs, sym);
    var k := PackingMade(p, sp, rs, sym);
    NoOldCursors(p, k);
    if SinkMade(p, sp, rs, sym) == [] {
      NothingCounted(k);
    } else {
      UncountedCut(Staged(p, sp, rs, sym).0.sizer.value.(crsrs := Cursors(k)), PrepareOut(p, sp, rs, sym).value, k, idx);
    }
  }

  lemma NoOldCursors(p: PageV, k: Packing)
    requires p.sizer.Some? && p.sizer.value.crsrs == [] && k.Packed?
    ensures p.sizer.value.crsrs + Cursors(k) == Cursors(k)
  {
  }

  lemma PreparedSplits(p: PageV, sp: SplitV, rs: Resource, sym: Bytes)
    requires Prepared(p, sp, rs, sym)
    ensures sp.SplitDone? && p.sizer.Some? && PrepareOut(p, sp, rs, sym).Done?
  {
    hide MenuStageOut, FillOut;
  }

  lemma NothingCounted(k: Packing)
    requires k.Packed? && k.full == [] && k.page == []
    ensures SunkCount(k) == 0 && forall idx: u16 :: !Wrapped(k, idx)
  {
  }

  /** The sizer of a fresh page knows what is filled. */
  lemma StagedSink(p: PageV, sp: SplitV, rs: Resource, sym: Bytes)
    requires Fresh(p, sp) && Prepared(p, sp, rs, sym)
    ensures SinkMade(p, sp, rs, sym) != [] ==> Staged(p, sp, rs, sym).0.sizer.value.sink == SinkMade(p, sp, rs, sym)
  {
    hide FillOut, MRenderOut, MRenderState, DisposedMenu;
  }

  /** The packing of a prepared page: its pages are opened and hold lines, and there are none without a sink. */
  lemma {:induction false} MadeShape(p: PageV, sp: SplitV, rs: Resource, sym: Bytes)
    requires Prepared(p, sp, rs, sym) && sp.SplitDone? && Clean(sp.items) && (sp.sink == [] ==> sp.items == [])
    ensures var k := PackingMade(p, sp, rs, sym);
      && k.Packed? && AllOpened(k) && Clean(k.page) && (forall j :: 0 <= j < |k.full| ==> Clean(k.full[j]))
      && (SinkMade(p, sp, rs, sym) == [] ==> k.full == [] && k.page == [])
  {
    hide MRenderOut, MRenderState, RenderOut, Pack, Clean, AllOpened, CheckV, FirstNet, MSizes, SunkText, Emptied;
    var staged := Staged(p, sp, rs, sym);
    StagedItems(p, sp, rs);
    var s := RenderOut(WithCursors(staged.0, [0]), rs, sym, staged.1.noSink, 0);
    var sizes, remaining := ReservedSizes(staged.0), CheckV(staged.0.sizer.value.outputSize, s.value).value;
    var items := staged.1.items;
    PackShape(items, FirstNet(remaining, |items|, sizes.next), sizes.previous);
    PackClean(items, FirstNet(remaining, |items|, sizes.next), sizes.previous);
    PackNothing(FirstNet(remaining, |items|, sizes.next), sizes.previous);
  }

  lemma PackNothing(net: u32, previous: u32)
    ensures Pack([], net, previous) == Packed([], [], net)
  {
  }

  lemma StagedItems(p: PageV, sp: SplitV, rs: Resource)
    requires sp.SplitDone? && Clean(sp.items) && (sp.sink == [] ==> sp.items == []) && MenuStageOut(p, rs, sp).Done?
    ensures Clean(MenuStageOut(p, rs, sp).value.items)
    ensures MenuStageOut(p, rs, sp).value.sink == [] ==> MenuStageOut(p, rs, sp).value.items == []
  {
    hide MRenderOut, DisposedMenu;
  }

  /** In particular it is none when the items, in number and size, stay below the counters. */
  lemma {:induction false} NoBrowseError(p: PageV, sp: SplitV, rs: Resource, sym: Bytes, idx: u16)
    requires Fresh(p, sp) && (sp.SplitDone? ==> Clean(sp.items) && (sp.sink == [] ==> sp.items == []))
    requires Prepared(p, sp, rs, sym) ==> PlainPage(Staged(p, sp, rs, sym).0, rs, sym) && Countable(Staged(p, sp, rs, sym).1.items)
    ensures !IsBrowseError(PageOut(p, sp, rs, sym, idx))
  {
    hide PageOut, Prepared, PlainPage, Staged, Countable, Clean, PackingMade, ClosedText, Wrap16;
    FreshBrowseErrorIff(p, sp, rs, sym, idx);
    if Prepared(p, sp, rs, sym) {
      MadeReadable(p, sp, rs, sym);
    }
  }

  lemma {:induction false} MadeReadable(p: PageV, sp: SplitV, rs: Resource, sym: Bytes)
    requires Prepared(p, sp, rs, sym) && Countable(Staged(p, sp, rs, sym).1.items)
    ensures var k := PackingMade(p, sp, rs, sym);
      k.Packed? ==> |k.full| < 0xFFFF && |ClosedText(k.full)| < 0x1_0000_0000
  {
    hide MRenderOut, MRenderState, RenderOut, Pack, CheckV, FirstNet, MSizes, SunkText, PrepareOut, MenuStageOut, MenuStageState,
      Countable, Clean, AllOpened, ClosedText;
    var staged := Staged(p, sp, rs, sym);
    var s := RenderOut(WithCursors(staged.0, [0]), rs, sym, staged.1.noSink, 0);
    var sizes, remaining := ReservedSizes(staged.0), CheckV(staged.0.sizer.value.outputSize, s.value).value;
    var net := FirstNet(remaining, |staged.1.items|, sizes.next);
    if Pack(staged.1.items, net, sizes.previous).Packed? {
      PackedReadable(staged.1.items, net, sizes.previous);
    }
  }

  /** Non-empty pages are no more than the items on them. */
  lemma {:induction false} PagesCounted(pages: seq<seq<Bytes>>)
    requires forall i :: 0 <= i < |pages| ==> pages[i] != []
    ensures |pages| <= |Flatten(pages)|
  {
    if pages != [] {
      PagesCounted(pages[..|pages| - 1]);
    }
  }

  /** Packed items of a number and size below the counters can be read back, whatever the budget. */
  lemma {:induction false} PackedReadable(items: seq<Bytes>, net: u32, previous: u32)
    requires Countable(items) && Pack(items, net, previous).Packed?
    ensures Readable(Pack(items, net, previous))
  {
    hide Pack, ClosedText, Total, Flatten, Clean, EmptyOpens, Keeps, PageText;
    var k := Pack(items, net, previous);
    PackShape(items, net, previous);
    PackClean(items, net, previous);
    NothingLost(items, net, previous);
    KeptSizes(items, Flatten(Pages(k)), EmptyOpens(items, net, previous));
    FullTextSize(k);
    FlattenPages(k);
    PagesCounted(k.full);
  }

  // ----- pages as a node maps them -----

  /** The one mapped symbol without limit is the sink of the page, and of its sizer. */
  ghost predicate SinkTracked(p: PageV, sizes: map<Bytes, u16>) {
    forall k :: k in p.values && k in sizes && sizes[k] == 0 ==>
      p.sink == Some(k) && (p.sizer.Some? ==> p.sizer.value.sink == k)
  }

  function SizeOf(sizes: map<Bytes, u16>, key: Bytes): Option<u16> {
    if key in sizes then Some(sizes[key]) else None
  }

  /** The page after mapping `keys`, with the values and sizes of a cache; refused mappings change nothing. */
  function MapAll(p: PageV, values: map<Bytes, Bytes>, sizes: map<Bytes, u16>, keys: seq<Bytes>): PageV {
    if keys == [] then p
    else
      var q := MapAll(p, values, sizes, keys[..|keys| - 1]);
      var key := keys[|keys| - 1];
      MapState(q, if key in values then Some(values[key]) else None, SizeOf(sizes, key), key)
  }

  lemma MapKeepsSink(p: PageV, value: Option<Bytes>, sizes: map<Bytes, u16>, key: Bytes)
    requires SinkTracked(p, sizes)
    ensures var q := MapState(p, value, SizeOf(sizes, key), key);
      && SinkTracked(q, sizes) && q.sizer.Some? == p.sizer.Some?
      && (p.sizer.Some? ==> q.sizer.value.crsrs == p.sizer.value.crsrs)
  {
    hide Wrap32;
  }

  /**
   Mapping any symbols on a reset page leaves at most one sink, which the sizer knows, as long as the sizes are those of
   the mapping.
   */
  lemma {:induction false} MappedPage(p: PageV, values: map<Bytes, Bytes>, sizes: map<Bytes, u16>, keys: seq<Bytes>)
    ensures var q := MapAll(PReset(p), values, sizes, keys);
      && SinkTracked(q, sizes) && OneSink(q.values, sizes) && (q.sizer.Some? ==> q.sizer.value.crsrs == [])
  {
    hide MapState, MReset;
    if keys != [] {
      var key := keys[|keys| - 1];
      MappedPage(p, values, sizes, keys[..|keys| - 1]);
      MapKeepsSink(MapAll(PReset(p), values, sizes, keys[..|keys| - 1]),
                   if key in values then Some(values[key]) else None, sizes, key);
    }
  }

  lemma TrackedIsFresh(p: PageV, sizes: map<Bytes, u16>, sp: SplitV)
    requires SinkTracked(p, sizes) && (p.sizer.Some? ==> p.sizer.value.crsrs == []) && Splits(p.values, sizes, sp)
    ensures Fresh(p, sp) && (sp.SplitDone? ==> Clean(sp.items) && (sp.sink == [] ==> sp.items == []))
  {
  }

  /** A page mapped after a reset, and rendered with the same sizes: its browse errors are those of wrapped counters. */
  lemma {:induction false} MappedPageBrowseErrorIff(
      p: PageV, values: map<Bytes, Bytes>, sizes: map<Bytes, u16>, keys: seq<Bytes>, sp: SplitV, rs: Resource, sym: Bytes, idx: u16)
    requires Splits(MapAll(PReset(p), values, sizes, keys).values, sizes, sp)
    requires var q := MapAll(PReset(p), values, sizes, keys);
      Prepared(q, sp, rs, sym) ==> PlainPage(Staged(q, sp, rs, sym).0, rs, sym)
    ensures var q := MapAll(PReset(p), values, sizes, keys);
      IsBrowseError(PageOut(q, sp, rs, sym, idx)) <==>
        && Prepared(q, sp, rs, sym) && q.menu.Some?
        && PackingMade(q, sp, rs, sym).Packed? && Wrapped(PackingMade(q, sp, rs, sym), idx)
  {
    hide *;
    MappedPage(p, values, sizes, keys);
    TrackedIsFresh(MapAll(PReset(p), values, sizes, keys), sizes, sp);
    FreshBrowseErrorIff(MapAll(PReset(p), values, sizes, keys), sp, rs, sym, idx);
  }
}
