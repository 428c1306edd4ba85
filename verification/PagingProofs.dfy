/** The laws of pagination: what is lost, and how the pages read back. */
module PagingProofs {
  import opened Common
  import opened Paging
  import opened Sizing

  // ----- shape -----

  /** Every page of a packing starts with a non-empty item. */
  predicate Opened(page: seq<Bytes>) {
    page != [] && page[0] != []
  }

  ghost predicate AllOpened(k: Packing) {
    k.Packed? ==>
      && (forall i :: 0 <= i < |k.full| ==> Opened(k.full[i]))
      && (k.page != [] ==> Opened(k.page))
  }

  lemma {:induction false} PackShape(items: seq<Bytes>, net: u32, previous: u32)
    ensures AllOpened(Pack(items, net, previous))
  {
    if items != [] {
      PackShape(items[..|items| - 1], net, previous);
    }
  }

  lemma OpenedText(page: seq<Bytes>)
    ensures page == [] ==> PageText(page) == []
    ensures Opened(page) ==> PageText(page) != []
  {
  }

  lemma {:induction false} PackPrefix(items: seq<Bytes>, i: nat, net: u32, previous: u32)
    requires i <= |items| && Pack(items, net, previous).Packed?
    ensures Pack(items[..i], net, previous).Packed?
    decreases |items|
  {
    if i == |items| {
      assert items[..i] == items;
    } else {
      var last := |items| - 1;
      assert items[..last][..i] == items[..i];
      PackPrefix(items[..last], i, net, previous);
    }
  }

  lemma FlattenSnoc(pages: seq<seq<Bytes>>, p: seq<Bytes>)
    ensures Flatten(pages + [p]) == Flatten(pages) + p
  {
    assert (pages + [p])[..|pages|] == pages;
  }

  // ----- nothing is lost -----

  /** The items that are not empty, in order. */
  function NonEmpty(items: seq<Bytes>): seq<Bytes> {
    if items == [] then []
    else
      var last := |items| - 1;
      NonEmpty(items[..last]) + if items[last] == [] then [] else [items[last]]
  }

  lemma NonEmptySnoc(items: seq<Bytes>, v: Bytes)
    ensures NonEmpty(items + [v]) == NonEmpty(items) + if v == [] then [] else [v]
  {
    assert (items + [v])[..|items|] == items;
  }

  /** An empty item opens a page when it is the first of all, or when the open page does not take it. */
  predicate EmptyOpener(k: Packing, v: Bytes) {
    k.Packed? && v == [] && (k.page == [] || !TakesItem(k.page, v, k.net))
  }

  predicate EmptyOpensAt(items: seq<Bytes>, i: nat, net: u32, previous: u32)
    requires i < |items|
  {
    EmptyOpener(Pack(items[..i], net, previous), items[i])
  }

  /** Some empty item opens a page. */
  predicate EmptyOpens(items: seq<Bytes>, net: u32, previous: u32) {
    exists i :: 0 <= i < |items| && EmptyOpensAt(items, i, net, previous)
  }

  lemma FlattenPages(k: Packing)
    requires k.Packed?
    ensures Flatten(Pages(k)) == Flatten(k.full) + k.page
  {
    if k.page == [] {
      assert Pages(k) == k.full;
    } else {
      FlattenSnoc(k.full, k.page);
    }
  }

  /** One step adds its item to the pages, except for an empty item that opens a page. */
  lemma FlattenStep(k: Packing, i: nat, v: Bytes, previous: u32)
    requires k.Packed? && PackItem(k, i, v, previous).Packed?
    ensures
      var k' := PackItem(k, i, v, previous);
      Flatten(Pages(k')) == Flatten(Pages(k)) + if EmptyOpener(k, v) then [] else [v]
  {
    var k' := PackItem(k, i, v, previous);
    var closes := !TakesItem(k.page, v, k.net);
    assert k'.full == if closes then k.full + [k.page] else k.full;
    assert k'.page == PlaceOn(if closes then [] else k.page, v);
    assert EmptyOpener(k, v) == (v == [] && (k.page == [] || closes));
    hide *;
    FlattenPages(k);
    FlattenPages(k');
    FlattenSnoc(k.full, k.page);
    PlaceItem(k.page, v);
    PlaceItem([], v);
  }

  lemma PlaceItem(page: seq<Bytes>, v: Bytes)
    ensures PlaceOn(page, v) == page + if v == [] && page == [] then [] else [v]
  {
  }

  /** `kept` is `items` without some empty items; without any when none is lost. */
  predicate Keeps(items: seq<Bytes>, kept: seq<Bytes>, lost: bool) {
    && NonEmpty(kept) == NonEmpty(items) && Total(kept) == Total(items) && |kept| <= |items|
    && if lost then |kept| < |items| else kept == items
  }

  /**
   On every input that packs, the pages hold the items in order; only empty items can be missing, and
   one is missing exactly when an empty item opens a page.
   */
  lemma {:induction false} NothingLost(items: seq<Bytes>, net: u32, previous: u32)
    requires Pack(items, net, previous).Packed?
    ensures Keeps(items, Flatten(Pages(Pack(items, net, previous))), EmptyOpens(items, net, previous))
  {
    if items != [] {
      var last := |items| - 1;
      var k, v := Pack(items[..last], net, previous), items[last];
      assert Pack(items, net, previous) == PackItem(k, last, v, previous);
      assert EmptyOpener(k, v) ==> v == [];
      hide *;
      PackPrefix(items, last, net, previous);
      NothingLost(items[..last], net, previous);
      FlattenStep(k, last, v, previous);
      EmptyOpensSnoc(items, net, previous);
      KeepsItem(items[..last], Flatten(Pages(k)), EmptyOpens(items[..last], net, previous), v, EmptyOpener(k, v));
      LastItem(items);
    }
  }

  lemma LastItem(items: seq<Bytes>)
    requires items != []
    ensures items[..|items| - 1] + [items[|items| - 1]] == items
  {
  }

  lemma KeepsItem(items: seq<Bytes>, kept: seq<Bytes>, lost: bool, v: Bytes, drop: bool)
    requires Keeps(items, kept, lost) && (drop ==> v == [])
    ensures Keeps(items + [v], kept + if drop then [] else [v], lost || drop)
  {
    NonEmptySnoc(kept, v);
    NonEmptySnoc(items, v);
    TotalAppend(kept, [v]);
    TotalAppend(items, [v]);
    assert kept + [] == kept;
  }

  lemma EmptyOpensSnoc(items: seq<Bytes>, net: u32, previous: u32)
    requires items != []
    ensures
      var last := |items| - 1;
      EmptyOpens(items, net, previous) <==>
        EmptyOpens(items[..last], net, previous) || EmptyOpener(Pack(items[..last], net, previous), items[last])
  {
    hide Pack, EmptyOpener;
    var last := |items| - 1;
    forall i | 0 <= i < last
      ensures EmptyOpensAt(items[..last], i, net, previous) == EmptyOpensAt(items, i, net, previous)
    {
      assert items[..last][..i] == items[..i];
    }
    assert EmptyOpensAt(items, last, net, previous) == EmptyOpener(Pack(items[..last], net, previous), items[last]);
  }

  // ----- reading the pages back -----

  /** Items as Split leaves them. */
  predicate Clean(items: seq<Bytes>) {
    forall i :: 0 <= i < |items| ==> LF !in items[i]
  }

  lemma {:induction false} PackClean(items: seq<Bytes>, net: u32, previous: u32)
    requires Clean(items)
    ensures var k := Pack(items, net, previous);
      k.Packed? ==> Clean(k.page) && forall i :: 0 <= i < |k.full| ==> Clean(k.full[i])
  {
    if items != [] {
      var last := |items| - 1;
      PackClean(items[..last], net, previous);
      hide TakesItem;
    }
  }

  lemma PageTextClean(p: seq<Bytes>)
    requires Clean(p)
    ensures LF !in PageText(p)
  {
    JoinAvoids(p, NUL, LF);
  }

  /** The text of closed page `i` stands at the end of the pages before it and is followed by LF. */
  lemma {:induction false} ClosedAt(full: seq<seq<Bytes>>, i: nat)
    requires i < |full|
    ensures
      var c, t, r := |ClosedText(full[..i])|, PageText(full[i]), ClosedText(full);
      c + |t| < |r| && r[c..c + |t|] == t && r[c + |t|] == LF && (i == |full| - 1 ==> c + |t| + 1 == |r|)
  {
    var last := |full| - 1;
    var before, t := ClosedText(full[..last]), PageText(full[last]);
    if i == last {
      assert (before + t + [LF])[|before|..|before| + |t|] == t;
    } else {
      ClosedAt(full[..last], i);
      assert full[..last][..i] == full[..i];
      var c, ti := |ClosedText(full[..i])|, PageText(full[i]);
      assert (before + (t + [LF]))[c..c + |ti|] == before[c..c + |ti|];
      assert before + (t + [LF]) == ClosedText(full);
    }
  }

  lemma {:induction false} ClosedCursorsAt(full: seq<seq<Bytes>>, i: nat)
    requires i < |full|
    ensures ClosedCursors(full)[i] == Wrap32(|ClosedText(full[..i + 1])|)
  {
    var last := |full| - 1;
    if i < last {
      ClosedCursorsAt(full[..last], i);
      assert full[..last][..i + 1] == full[..i + 1];
    } else {
      assert full[..i + 1] == full;
    }
  }

  /** Cutting at a page's start and at the next LF gives that page. */
  lemma PageAtText(s: Bytes, c: nat, t: Bytes)
    requires c + |t| <= |s| && s[c..c + |t|] == t && t != [] && LF !in t
    requires c + |t| == |s| || s[c + |t|] == LF
    ensures PageAt(s, c) == Replace(t, NUL, LF)
  {
    var rest := s[c..];
    var nl := IndexOf(rest, LF);
    assert rest[..|t|] == t;
    if c + |t| == |s| {
      assert rest == t;
    } else {
      assert rest[|t|] == LF;
      forall j | 0 <= j < |t| ensures rest[j] != LF {
        assert rest[..|t|][j] == t[j] && t[j] in t;
      }
      assert nl >= |t|;
      assert nl == |t|;
    }
  }

  lemma TrimClean(s: Bytes, t: Bytes)
    requires t != [] && LF !in t
    ensures TrimLF(s + t) == s + t && TrimLF(s + t + [LF]) == s + t
  {
    assert (s + t)[|s + t| - 1] == t[|t| - 1];
    assert (s + t + [LF])[..|s + t|] == s + t;
  }

  /** Where the flattened content ends: at the open page, or at the last closed page without its LF. */
  lemma SunkTextIs(k: Packing)
    requires k.Packed? && AllOpened(k)
    requires Clean(k.page) && forall i :: 0 <= i < |k.full| ==> Clean(k.full[i])
    ensures k.page != [] ==> SunkText(k) == ClosedText(k.full) + PageText(k.page)
    ensures k.page == [] && k.full != [] ==>
      SunkText(k) == ClosedText(k.full[..|k.full| - 1]) + PageText(k.full[|k.full| - 1])
    ensures k.page == [] && k.full == [] ==> SunkText(k) == []
  {
    if k.page != [] {
      OpenedText(k.page);
      PageTextClean(k.page);
      TrimClean(ClosedText(k.full), PageText(k.page));
    } else if k.full != [] {
      var p := k.full[|k.full| - 1];
      OpenedText(p);
      PageTextClean(p);
      TrimClean(ClosedText(k.full[..|k.full| - 1]), PageText(p));
      assert ClosedText(k.full) + PageText(k.page) == ClosedText(k.full);
    }
  }

  /** The cursors of a packing, the 0 that prepare adds included. */
  function Cursors(k: Packing): seq<u32>
    requires k.Packed?
  {
    [0] + ClosedCursors(k.full)
  }

  lemma CursorIs(k: Packing, i: nat)
    requires k.Packed? && i <= |k.full|
    ensures Cursors(k)[i] == Wrap32(|ClosedText(k.full[..i])|)
  {
    if i > 0 {
      ClosedCursorsAt(k.full, i - 1);
    } else {
      assert k.full[..0] == [];
    }
  }

  lemma {:induction false} ClosedTextMonotone(full: seq<seq<Bytes>>, i: nat)
    requires i <= |full|
    ensures |ClosedText(full[..i])| <= |ClosedText(full)|
  {
    if i < |full| {
      var last := |full| - 1;
      ClosedTextMonotone(full[..last], i);
      assert full[..last][..i] == full[..i];
    } else {
      assert full[..i] == full;
    }
  }

  /** Reading page `i` at its cursor gives its items, one a line, whatever bytes are in them. */
  lemma PageReads(k: Packing, i: nat)
    requires k.Packed? && AllOpened(k) && i < |Pages(k)|
    requires Clean(k.page) && forall j :: 0 <= j < |k.full| ==> Clean(k.full[j])
    requires |ClosedText(k.full)| < 0x1_0000_0000
    ensures
      var c := Cursors(k)[i];
      c <= |SunkText(k)| && PageAt(SunkText(k), c) == Chunk(Pages(k)[i])
  {
    hide *;
    CursorExact(k, i);
    PageStands(k, i);
    PageIsClean(k, i);
    PageAtText(SunkText(k), |ClosedText(k.full[..i])|, PageText(Pages(k)[i]));
    ReplacePage(Pages(k)[i]);
  }

  lemma CursorExact(k: Packing, i: nat)
    requires k.Packed? && i < |Pages(k)| && |ClosedText(k.full)| < 0x1_0000_0000
    ensures i <= |k.full| && Cursors(k)[i] == |ClosedText(k.full[..i])|
  {
    CursorIs(k, i);
    ClosedTextMonotone(k.full, i);
  }

  lemma PageIsClean(k: Packing, i: nat)
    requires k.Packed? && AllOpened(k) && i < |Pages(k)|
    requires Clean(k.page) && forall j :: 0 <= j < |k.full| ==> Clean(k.full[j])
    ensures var p := Pages(k)[i]; Clean(p) && PageText(p) != [] && LF !in PageText(p)
  {
    var p := Pages(k)[i];
    OpenedText(p);
    PageTextClean(p);
  }

  lemma ReplacePage(p: seq<Bytes>)
    ensures Replace(PageText(p), NUL, LF) == Chunk(p)
    ensures (forall i :: 0 <= i < |p| ==> NUL !in p[i]) ==> Chunk(p) == Join(p, LF)
  {
    ReplaceJoin(p, NUL, LF);
  }

  /** Page `i` of a packing stands in the flattened content where its cursor points. */
  lemma PageStands(k: Packing, i: nat)
    requires k.Packed? && AllOpened(k) && i < |Pages(k)|
    requires Clean(k.page) && forall j :: 0 <= j < |k.full| ==> Clean(k.full[j])
    ensures
      var c, t, s := |ClosedText(k.full[..i])|, PageText(Pages(k)[i]), SunkText(k);
      c + |t| <= |s| && s[c..c + |t|] == t && (c + |t| == |s| || s[c + |t|] == LF)
  {
    if i == |k.full| {
      assert k.full[..i] == k.full;
      assert k.page != [];
      SunkTextIs(k);
    } else {
      assert Pages(k)[i] == k.full[i];
      hide *;
      ClosedPageStands(k, i);
    }
  }

  lemma ClosedPageStands(k: Packing, i: nat)
    requires k.Packed? && AllOpened(k) && i < |k.full|
    requires Clean(k.page) && forall j :: 0 <= j < |k.full| ==> Clean(k.full[j])
    ensures
      var c, t, s := |ClosedText(k.full[..i])|, PageText(k.full[i]), SunkText(k);
      c + |t| <= |s| && s[c..c + |t|] == t && (c + |t| == |s| || s[c + |t|] == LF)
  {
    var c, t, r, s := |ClosedText(k.full[..i])|, PageText(k.full[i]), ClosedText(k.full), SunkText(k);
    SunkTextIs(k);
    ClosedAt(k.full, i);
    hide ClosedText, SunkText, TrimLF, PageText, Clean;
    if k.page == [] {
      assert r == s + [LF];
    } else {
      assert s[..|r|] == r;
    }
    assert s[c..c + |t|] == r[c..c + |t|];
  }

  // ----- the round trip -----

  /** The pages as GetAt shows them. */
  function ShownPages(pages: seq<seq<Bytes>>): (r: seq<Bytes>)
    ensures |r| == |pages|
    ensures forall i :: 0 <= i < |pages| ==> r[i] == Chunk(pages[i])
  {
    if pages == [] then [] else ShownPages(pages[..|pages| - 1]) + [Chunk(pages[|pages| - 1])]
  }

  lemma {:induction false} JoinShown(pages: seq<seq<Bytes>>)
    requires forall i :: 0 <= i < |pages| ==> pages[i] != []
    ensures Join(ShownPages(pages), LF) == Replace(Join(Flatten(pages), LF), NUL, LF)
  {
    if pages != [] {
      var last := |pages| - 1;
      JoinShown(pages[..last]);
      JoinSnoc(ShownPages(pages[..last]), Chunk(pages[last]), LF);
      if last > 0 {
        FlattenNonEmpty(pages[..last]);
        JoinAppend(Flatten(pages[..last]), pages[last], LF);
        ReplaceLine(Join(Flatten(pages[..last]), LF), Join(pages[last], LF));
      } else {
        assert Flatten(pages) == pages[0];
      }
    }
  }

  lemma ReplaceLine(s: Bytes, t: Bytes)
    ensures Replace(s + [LF] + t, NUL, LF) == Replace(s, NUL, LF) + [LF] + Replace(t, NUL, LF)
  {
    ReplaceAppend(s + [LF], t, NUL, LF);
    ReplaceAppend(s, [LF], NUL, LF);
  }

  lemma FlattenNonEmpty(pages: seq<seq<Bytes>>)
    requires pages != [] && pages[|pages| - 1] != []
    ensures Flatten(pages) != []
  {
  }

  /**
   The round trip. Whenever packing succeeds, each of the counted pages reads back as its items, one a
   line. Joining the pages by LF gives back the sink content if and only if no empty item opens a page and
   there is no NUL in the content (or the content is empty).
   */
  lemma {:induction false} RoundTrip(content: Bytes, net: u32, previous: u32)
    requires |content| < 0xFFFF_FFFF
    requires Pack(SplitLines(content), net, previous).Packed?
    ensures
      var items := SplitLines(content);
      var k := Pack(items, net, previous);
      && (forall i :: 0 <= i < |Pages(k)| ==>
            Cursors(k)[i] <= |SunkText(k)| && PageAt(SunkText(k), Cursors(k)[i]) == ShownPages(Pages(k))[i])
      && (Join(ShownPages(Pages(k)), LF) == content <==>
            content == [] || (NUL !in content && !EmptyOpens(items, net, previous)))
  {
    hide *;
    var items := SplitLines(content);
    var k := Pack(items, net, previous);
    PackReads(content, net, previous);
    NothingLost(items, net, previous);
    PackOpens(items, net, previous);
    JoinShown(Pages(k));
    JoinSplit(content);
    KeptText(items, Flatten(Pages(k)), EmptyOpens(items, net, previous));
  }

  /** Pages without a lost line have the text of the items, but for NUL; pages with one have a shorter text, or both have none. */
  lemma KeptText(items: seq<Bytes>, kept: seq<Bytes>, lost: bool)
    requires Keeps(items, kept, lost) && items != []
    ensures Replace(Join(kept, LF), NUL, LF) == Join(items, LF) <==>
      Join(items, LF) == [] || (NUL !in Join(items, LF) && !lost)
  {
    JoinLength(items, LF);
    JoinLength(kept, LF);
    ReplaceNothing(Join(items, LF), NUL, LF);
  }

  lemma PackOpens(items: seq<Bytes>, net: u32, previous: u32)
    requires Pack(items, net, previous).Packed?
    ensures var pages := Pages(Pack(items, net, previous)); forall i :: 0 <= i < |pages| ==> pages[i] != []
  {
    PackShape(items, net, previous);
    hide Pack;
  }

  lemma {:induction false} PackReads(content: Bytes, net: u32, previous: u32)
    requires |content| < 0xFFFF_FFFF
    requires Pack(SplitLines(content), net, previous).Packed?
    ensures
      var k := Pack(SplitLines(content), net, previous);
      forall i :: 0 <= i < |Pages(k)| ==>
        Cursors(k)[i] <= |SunkText(k)| && PageAt(SunkText(k), Cursors(k)[i]) == ShownPages(Pages(k))[i]
  {
    hide Pack, SunkText, PageAt, Flatten, TrimLF, PageText, ClosedText, Keeps, ShownPages, Join, Total, Chunk;
    var items := SplitLines(content);
    var k := Pack(items, net, previous);
    PackClean(items, net, previous);
    PackShape(items, net, previous);
    NothingLost(items, net, previous);
    KeptSizes(items, Flatten(Pages(k)), EmptyOpens(items, net, previous));
    ContentSize(content, k);
    forall i | 0 <= i < |Pages(k)|
      ensures Cursors(k)[i] <= |SunkText(k)| && PageAt(SunkText(k), Cursors(k)[i]) == ShownPages(Pages(k))[i]
    {
      CursorExact(k, i);
      PageReads(k, i);
    }
  }

  lemma KeptSizes(items: seq<Bytes>, kept: seq<Bytes>, lost: bool)
    requires Keeps(items, kept, lost)
    ensures Total(kept) == Total(items) && |kept| <= |items|
  {
    hide NonEmpty;
  }

  /** The closed pages are no longer than the content and a final newline. */
  lemma ContentSize(content: Bytes, k: Packing)
    requires k.Packed? && AllOpened(k)
    requires Total(Flatten(Pages(k))) == Total(SplitLines(content)) && |Flatten(Pages(k))| <= |SplitLines(content)|
    ensures |ClosedText(k.full)| <= |content| + 1
  {
    JoinSplit(content);
    JoinLength(SplitLines(content), LF);
    ClosedTextSize(k.full);
    FlattenPages(k);
    TotalAppend(Flatten(k.full), k.page);
  }

  lemma {:induction false} ClosedTextSize(full: seq<seq<Bytes>>)
    requires forall i :: 0 <= i < |full| ==> full[i] != []
    ensures |ClosedText(full)| == Total(Flatten(full)) + |Flatten(full)|
  {
    if full != [] {
      var last := |full| - 1;
      ClosedTextSize(full[..last]);
      JoinLength(full[last], NUL);
      TotalAppend(Flatten(full[..last]), full[last]);
    }
  }
}
