/** Pages keep their budgets, and no other division of the items into pages within them is shorter. */
module PagingBudgets {
  import opened Common
  import opened Paging
  import opened PagingProofs

  /** The numbers stay below the widths the source counts them in, and no budget is used up by the reservation. */
  predicate Budgeted(items: seq<Bytes>, net: u32, previous: u32) {
    && 1 <= net
    && (|items| > 1 ==> previous + 2 <= net)
    && |items| < 0x1_0000
    && Total(items) + |items| < 0x1_0000_0000
  }

  /** The bytes page `i` may hold. */
  function Budget(i: nat, net: u32, previous: u32): int {
    if i == 0 then net else net - previous - 1
  }

  /** A page is within its budget, or it is a later page with a single item: an opening item is not checked. */
  predicate Fits(page: seq<Bytes>, i: nat, net: u32, previous: u32) {
    |PageText(page)| <= Budget(i, net, previous) || (i > 0 && |page| == 1)
  }

  predicate AllFit(k: Packing, net: u32, previous: u32) {
    && k.Packed?
    && k.net == Budget(|k.full|, net, previous)
    && (forall i :: 0 <= i < |k.full| ==> Fits(k.full[i], i, net, previous))
    && Fits(k.page, |k.full|, net, previous)
  }

  /** Pages and open page stay within the number and the size of the items. */
  predicate Small(k: Packing, items: seq<Bytes>) {
    && k.Packed?
    && (items == [] ==> k.full == []) && (items != [] ==> |k.full| < |items|)
    && |PageText(k.page)| <= Total(items) + |items|
  }

  lemma PageTextSnoc(p: seq<Bytes>, v: Bytes)
    ensures PageText(p + [v]) == if p == [] then v else PageText(p) + [NUL] + v
  {
    JoinSnoc(p, v, NUL);
  }

  lemma PlaceText(p: seq<Bytes>, v: Bytes)
    ensures |PageText(PlaceOn(p, v))| == |PageText(p)| + |v| + if p == [] then 0 else 1
  {
    PageTextSnoc(p, v);
  }

  lemma BudgetedPrefix(items: seq<Bytes>, i: nat, net: u32, previous: u32)
    requires i <= |items| && Budgeted(items, net, previous)
    ensures Budgeted(items[..i], net, previous)
  {
    TotalAppend(items[..i], items[i..]);
    assert items == items[..i] + items[i..];
  }

  lemma TotalSnoc(items: seq<Bytes>, v: Bytes)
    ensures Total(items + [v]) == Total(items) + |v|
  {
    TotalAppend(items, [v]);
  }

  lemma SmallStep(k: Packing, items: seq<Bytes>, v: Bytes, previous: u32)
    requires Small(k, items) && PackItem(k, |items|, v, previous).Packed?
    requires items == [] ==> k.page == []
    ensures Small(PackItem(k, |items|, v, previous), items + [v])
  {
    PlaceText(k.page, v);
    PlaceText([], v);
    TotalSnoc(items, v);
    hide PageText, TakesItem, Total;
    assert PageText([]) == [] by { OpenedText([]); }
  }

  /** With exact numbers an item is taken when the bytes so far and its own stay below the budget. */
  lemma TakesExactly(k: Packing, items: seq<Bytes>, v: Bytes)
    requires Small(k, items) && k.net >= 1
    requires Total(items) + |items| + |v| < 0x1_0000_0000
    ensures TakesItem(k.page, v, k.net) <==> |PageText(k.page)| + |v| <= k.net - 1
  {
  }

  lemma FitStep(k: Packing, items: seq<Bytes>, v: Bytes, net: u32, previous: u32)
    requires AllFit(k, net, previous) && Small(k, items) && PackItem(k, |items|, v, previous).Packed?
    requires Budgeted(items + [v], net, previous)
    requires items == [] ==> k.page == []
    ensures AllFit(PackItem(k, |items|, v, previous), net, previous)
  {
    TotalSnoc(items, v);
    TakesExactly(k, items, v);
    PlaceText(k.page, v);
    PlaceText([], v);
    OpenedText([]);
    hide PageText, TakesItem, Total;
  }

  lemma {:induction false} PackFits(items: seq<Bytes>, net: u32, previous: u32)
    requires Budgeted(items, net, previous) && Pack(items, net, previous).Packed?
    ensures AllFit(Pack(items, net, previous), net, previous)
    ensures Small(Pack(items, net, previous), items)
  {
    if items == [] {
      OpenedText([]);
    } else {
      var last := |items| - 1;
      var k, v := Pack(items[..last], net, previous), items[last];
      assert Pack(items, net, previous) == PackItem(k, last, v, previous);
      assert items[..last] == [] ==> k.page == [];
      hide *;
      PackPrefix(items, last, net, previous);
      BudgetedPrefix(items, last, net, previous);
      PackFits(items[..last], net, previous);
      LastItem(items);
      SmallStep(k, items[..last], v, previous);
      FitStep(k, items[..last], v, net, previous);
    }
  }

  /** Every page is within its budget when no single item exceeds a later page's. */
  lemma PagesWithinBudget(items: seq<Bytes>, net: u32, previous: u32)
    requires Budgeted(items, net, previous) && Pack(items, net, previous).Packed?
    requires |items| > 1 ==> forall i :: 0 <= i < |items| ==> |items[i]| <= Budget(1, net, previous)
    ensures
      var pages := Pages(Pack(items, net, previous));
      forall i :: 0 <= i < |pages| ==> |PageText(pages[i])| <= Budget(i, net, previous)
  {
    var k := Pack(items, net, previous);
    PackFits(items, net, previous);
    PackItems(items, net, previous);
    forall i | 0 <= i < |Pages(k)|
      ensures |PageText(Pages(k)[i])| <= Budget(i, net, previous)
    {
      var p := Pages(k)[i];
      assert Fits(p, i, net, previous);
      if i > 0 && |p| == 1 {
        assert Within(p, items);
        assert p[0] in items;
      }
    }
  }

  predicate Within(p: seq<Bytes>, items: seq<Bytes>) {
    forall j :: 0 <= j < |p| ==> p[j] in items
  }

  /** Pages hold nothing but the items. */
  lemma {:induction false} PackItems(items: seq<Bytes>, net: u32, previous: u32)
    ensures var k := Pack(items, net, previous);
      k.Packed? ==> Within(k.page, items) && forall i :: 0 <= i < |k.full| ==> Within(k.full[i], items)
  {
    if items != [] {
      var last := |items| - 1;
      var k := Pack(items[..last], net, previous);
      PackItems(items[..last], net, previous);
      hide TakesItem;
      assert k.Packed? ==> Within(k.page, items);
      assert k.Packed? ==> forall i :: 0 <= i < |k.full| ==> Within(k.full[i], items) by {
        assert k.Packed? ==> forall i :: 0 <= i < |k.full| ==> Within(k.full[i], items[..last]);
      }
    }
  }

  /** Item `i` is met while nothing is written on the open page. */
  predicate MetEmpty(items: seq<Bytes>, i: nat, net: u32, previous: u32) {
    i < |items| && Pack(items[..i], net, previous).Packed? && Pack(items[..i], net, previous).page == []
  }

  /** The budget that item `i` meets. */
  function BudgetAt(items: seq<Bytes>, i: nat, net: u32, previous: u32): int
    requires MetEmpty(items, i, net, previous)
  {
    Budget(|Pack(items[..i], net, previous).full|, net, previous)
  }

  /** Such an item is held against the budget: what stays below it is taken, and what does not ends the packing. */
  lemma {:induction false} MetEmptyStep(items: seq<Bytes>, net: u32, previous: u32)
    requires Budgeted(items, net, previous) && items != [] && Pack(items[..|items| - 1], net, previous).Packed?
    ensures var last := |items| - 1;
      Pack(items, net, previous).Packed? <==>
        (MetEmpty(items, last, net, previous) ==> |items[last]| < BudgetAt(items, last, net, previous))
  {
    var last := |items| - 1;
    var k, v := Pack(items[..last], net, previous), items[last];
    BudgetedPrefix(items, last, net, previous);
    PackFits(items[..last], net, previous);
    if k.page == [] {
      OpenedText([]);
      assert items == items[..last] + [v];
      TotalSnoc(items[..last], v);
      TakesExactly(k, items[..last], v);
    }
    hide TakesItem;
  }

  /**
   Exactly when packing fails: some item that is met while nothing is written on the open page does not
   stay below the budget of that page.
   */
  lemma {:induction false} PackFailsIff(items: seq<Bytes>, net: u32, previous: u32)
    requires Budgeted(items, net, previous)
    ensures Pack(items, net, previous).Packed? <==>
      forall i: nat :: MetEmpty(items, i, net, previous) ==> |items[i]| < BudgetAt(items, i, net, previous)
  {
    if items != [] {
      var last := |items| - 1;
      var before := items[..last];
      BudgetedPrefix(items, last, net, previous);
      PackFailsIff(before, net, previous);
      forall i: nat | i < last
        ensures before[..i] == items[..i] && before[i] == items[i]
        ensures MetEmpty(before, i, net, previous) <==> MetEmpty(items, i, net, previous)
      {
        hide Pack;
      }
      hide Pack;
      assert forall i: nat :: MetEmpty(items, i, net, previous) ==> i <= last;
      if Pack(before, net, previous).Packed? {
        MetEmptyStep(items, net, previous);
      } else {
        FailureStays(items, net, previous);
        var i: nat :| MetEmpty(before, i, net, previous) && |before[i]| >= BudgetAt(before, i, net, previous);
        assert MetEmpty(items, i, net, previous);
      }
    }
  }

  lemma FailureStays(items: seq<Bytes>, net: u32, previous: u32)
    requires items != [] && Pack(items[..|items| - 1], net, previous).Overflow?
    ensures Pack(items, net, previous).Overflow?
  {
  }

  /** The first item is met so; a later one exactly when the item before it is empty and was itself met so, or did not fit. */
  lemma {:induction false} MetEmptyIff(items: seq<Bytes>, i: nat, net: u32, previous: u32)
    requires 0 < i < |items| && Pack(items[..i - 1], net, previous).Packed? && Pack(items[..i], net, previous).Packed?
    ensures MetEmpty(items, 0, net, previous)
    ensures MetEmpty(items, i, net, previous) <==>
      && items[i - 1] == []
      && (MetEmpty(items, i - 1, net, previous) || !TakesItem(Pack(items[..i - 1], net, previous).page, [],
                                                              Pack(items[..i - 1], net, previous).net))
  {
    hide TakesItem;
    assert items[..i][..i - 1] == items[..i - 1];
  }

  /** Of non-empty items only the very first is held against the budget: a later one too large is given a page all the same. */
  lemma {:induction false} FirstItemDecides(items: seq<Bytes>, net: u32, previous: u32)
    requires Budgeted(items, net, previous)
    requires forall i :: 0 <= i < |items| ==> items[i] != []
    ensures Pack(items, net, previous).Packed? <==> (items == [] || |items[0]| < net)
    ensures Pack(items, net, previous).Packed? && items != [] ==> Pack(items, net, previous).page != []
  {
    if items != [] {
      var last := |items| - 1;
      BudgetedPrefix(items, last, net, previous);
      FirstItemDecides(items[..last], net, previous);
      if Pack(items[..last], net, previous).Packed? {
        MetEmptyStep(items, net, previous);
      } else {
        FailureStays(items, net, previous);
      }
      hide TakesItem;
    }
  }

  // ----- optimality -----

  /** A division of `items` into pages, in order, each within its budget. */
  predicate Division(items: seq<Bytes>, pages: seq<seq<Bytes>>, net: u32, previous: u32) {
    && Flatten(pages) == items
    && (forall i :: 0 <= i < |pages| ==> |PageText(pages[i])| <= Budget(i, net, previous))
  }

  /**
   Greedy stays ahead: if the items before page `m` of some division fill at most `m - 1` closed pages,
   then with the first items `q` of that page they fill at most `m`, and when they do the open page
   holds no more than `q`.
   */
  predicate Ahead(k: Packing, m: nat, q: seq<Bytes>) {
    && k.Packed? && |k.full| <= m
    && (|k.full| == m ==> |PageText(k.page)| <= |PageText(q)| && (m > 0 ==> q != []))
  }

  predicate FewerThan(k: Packing, m: nat) {
    k.Packed? && |k.full| < m
  }

  lemma AheadStep(k: Packing, items: seq<Bytes>, m: nat, q: seq<Bytes>, v: Bytes, net: u32, previous: u32)
    requires Ahead(k, m, q) && AllFit(k, net, previous) && Small(k, items)
    requires Budgeted(items + [v], net, previous)
    requires PackItem(k, |items|, v, previous).Packed?
    requires |PageText(q + [v])| <= Budget(m, net, previous)
    requires q == [] && m == 0 ==> k.page == []
    ensures Ahead(PackItem(k, |items|, v, previous), m, q + [v])
  {
    TotalSnoc(items, v);
    TakesExactly(k, items, v);
    PlaceText(k.page, v);
    PlaceText([], v);
    PageTextSnoc(q, v);
    OpenedText([]);
    OpenedText(q);
    hide PageText, TakesItem, Total;
  }

  lemma {:induction false} AheadPage(before: seq<Bytes>, q: seq<Bytes>, m: nat, net: u32, previous: u32)
    requires Budgeted(before + q, net, previous) && Pack(before + q, net, previous).Packed?
    requires if m == 0 then before == [] else FewerThan(Pack(before, net, previous), m)
    requires |PageText(q)| <= Budget(m, net, previous)
    ensures Ahead(Pack(before + q, net, previous), m, q)
  {
    if q == [] {
      assert before + q == before;
      OpenedText([]);
    } else {
      var last := |q| - 1;
      var v, items := q[last], before + q[..last];
      assert before + q == items + [v];
      assert (items + [v])[..|items|] == items;
      var k := Pack(items, net, previous);
      assert Pack(items + [v], net, previous) == PackItem(k, |items|, v, previous);
      assert q[..last] == [] && m == 0 ==> k.page == [];
      assert |PageText(q[..last])| <= |PageText(q)| by { LastItem(q); PageTextSnoc(q[..last], v); }
      hide *;
      PackPrefix(items + [v], |items|, net, previous);
      BudgetedPrefix(items + [v], |items|, net, previous);
      AheadPage(before, q[..last], m, net, previous);
      PackFits(items, net, previous);
      LastItem(q);
      AheadStep(k, items, m, q[..last], v, net, previous);
    }
  }

  lemma {:induction false} AheadOfDivision(pages: seq<seq<Bytes>>, net: u32, previous: u32)
    requires pages != [] && Division(Flatten(pages), pages, net, previous)
    requires Budgeted(Flatten(pages), net, previous) && Pack(Flatten(pages), net, previous).Packed?
    ensures FewerThan(Pack(Flatten(pages), net, previous), |pages|)
  {
    var m := |pages| - 1;
    var before := Flatten(pages[..m]);
    assert Flatten(pages) == before + pages[m];
    assert (before + pages[m])[..|before|] == before;
    BudgetedPrefix(Flatten(pages), |before|, net, previous);
    PackPrefix(Flatten(pages), |before|, net, previous);
    if m > 0 {
      AheadOfDivision(pages[..m], net, previous);
    }
    AheadPage(before, pages[m], m, net, previous);
  }

  /**
   Greedy packing is optimal: no division of the items, in order, into pages within the same budgets
   has fewer pages than the packing.
   */
  lemma NoShorterDivision(items: seq<Bytes>, pages: seq<seq<Bytes>>, net: u32, previous: u32)
    requires Budgeted(items, net, previous) && Pack(items, net, previous).Packed?
    requires Division(items, pages, net, previous)
    ensures |Pages(Pack(items, net, previous))| <= |pages|
  {
    if pages != [] {
      AheadOfDivision(pages, net, previous);
    }
  }

  /** The packing is itself such a division when no item is empty and none exceeds a later page. */
  lemma PackingIsDivision(items: seq<Bytes>, net: u32, previous: u32)
    requires Budgeted(items, net, previous) && Pack(items, net, previous).Packed?
    requires |items| > 1 ==> forall i :: 0 <= i < |items| ==> |items[i]| <= Budget(1, net, previous)
    requires forall i :: 0 <= i < |items| ==> items[i] != []
    ensures Division(items, Pages(Pack(items, net, previous)), net, previous)
  {
    NothingLost(items, net, previous);
    PagesWithinBudget(items, net, previous);
  }
}
