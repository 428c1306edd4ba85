/** The page renderer (render/page.go). */
module Rendering {
  import opened Common
  import opened Menus
  import opened Sizing
  import opened Paging
  import opened PagingProofs
  import opened Resources
  import opened Templates
  import Caching

  /** The placeholder `_menu` under which a menu used as sink is rendered. */
  const MENU_KEY: Bytes := [95, 109, 101, 110, 117]

  datatype PageV = PageV(
    values: map<Bytes, Bytes>, sink: Option<Bytes>, menu: Option<MenuV>, sizer: Option<SizerV>,
    err: Option<Bytes>, extra: Bytes)

  datatype Fault =
    | UnknownSymbol | SinkTaken | MenuSinkClash | NoTemplate | BadTemplate | MissingKey | SizerNeeded | NoMoreValues
    | ItemTooLarge(field: nat) | CapacityExceeded | LimitExceeded | MenuFault(out: MenuOut)

  datatype Outcome<+T> = Done(value: T) | Fail(fault: Fault) | Panicked

  // ----- what a render does, on values -----

  /** The source that is rendered: the template with extra content behind it and an error message in front. */
  function Composed(t: Bytes, extra: Bytes, err: Option<Bytes>): Bytes {
    var full := t + extra;
    if err.None? then full
    else if full == [] then err.value
    else err.value + [LF] + full
  }

  /** Parsing a source and executing it. */
  function Expand(rs: Resource, source: Bytes, values: map<Bytes, Bytes>): Outcome<Bytes> {
    match Compile(source)
    case Malformed => Fail(BadTemplate)
    case Other =>
      var text := rs.actions(source, values);
      if text.None? then Fail(BadTemplate) else Done(text.value)
    case Plain(t) =>
      var text := Execute(t, values);
      if text.None? then Fail(MissingKey) else Done(text.value)
  }

  function PagedValues(sizer: Option<SizerV>, values: map<Bytes, Bytes>, idx: u16): Outcome<map<Bytes, Bytes>> {
    if sizer.None? then if idx > 0 then Fail(SizerNeeded) else Done(values)
    else
      match GetAtV(sizer.value, values, idx)
      case Values(v) => Done(v)
      case NoMore => Fail(NoMoreValues)
      case Panic => Panicked
  }

  function TemplateText(p: PageV, rs: Resource, sym: Bytes, values: map<Bytes, Bytes>, idx: u16): Outcome<Bytes> {
    var t := rs.template(sym);
    if t.None? then Fail(NoTemplate)
    else
      match PagedValues(p.sizer, values, idx)
      case Fail(f) => Fail(f)
      case Panicked => Panicked
      case Done(v) =>
        Expand(rs, Composed(t.value, p.extra, p.err), v)
  }

  /** The menu under the template text, on a line of its own. */
  function WithMenuText(text: Bytes, menu: Bytes): Bytes {
    if menu == [] then text else text + [LF] + menu
  }

  function Checked(sizer: Option<SizerV>, text: Bytes): Outcome<Bytes> {
    if sizer.Some? && CheckV(sizer.value.outputSize, text).None? then Fail(LimitExceeded) else Done(text)
  }

  /** The method `render`: template, menu, size check. */
  function RenderOut(p: PageV, rs: Resource, sym: Bytes, values: map<Bytes, Bytes>, idx: u16): Outcome<Bytes> {
    var text := TemplateText(p, rs, sym, values, idx);
    if !text.Done? then text
    else if p.menu.None? then Checked(p.sizer, text.value)
    else
      var out := MRenderOut(p.menu.value, rs.title, idx);
      if !out.Rendered? then Fail(MenuFault(out)) else Checked(p.sizer, WithMenuText(text.value, out.text))
  }

  /** The page after `render`: only its menu changes, once the template is done. */
  function RenderState(p: PageV, rs: Resource, sym: Bytes, values: map<Bytes, Bytes>, idx: u16): PageV {
    if p.menu.Some? && TemplateText(p, rs, sym, values, idx).Done?
    then p.(menu := Some(MRenderState(p.menu.value, rs.title, idx)))
    else p
  }

  /** Values without the sink's content, the sink and its items; an unknown symbol fails. */
  datatype SplitV = SplitFail | SplitDone(noSink: map<Bytes, Bytes>, sink: Bytes, items: seq<Bytes>)

  /** The values with those of the symbols without a size limit emptied, as far as they are in `visited`. */
  function Emptied(values: map<Bytes, Bytes>, sizes: map<Bytes, u16>, visited: set<Bytes>): map<Bytes, Bytes> {
    map k | k in values :: if k in visited && k in sizes && sizes[k] == 0 then [] else values[k]
  }

  /**
   A split of the values: the sink is a symbol without a size limit. When there are several, it is the one the
   map happens to yield last, and all are emptied. The empty symbol counts as no sink.
   */
  ghost predicate Splits(values: map<Bytes, Bytes>, sizes: map<Bytes, u16>, sp: SplitV) {
    if !(values.Keys <= sizes.Keys) then sp.SplitFail?
    else
      && sp.SplitDone?
      && if sp.sink == [] then
           sp == SplitDone(values, [], []) && ((forall k :: k in values ==> sizes[k] != 0) || ([] in values && sizes[[]] == 0))
         else
           && sp.sink in values && sizes[sp.sink] == 0
           && sp == SplitDone(Emptied(values, sizes, values.Keys), sp.sink, SplitLines(values[sp.sink]))
  }

  /** `{{._menu}}` on a line of its own. */
  const MENU_PLACEHOLDER: Bytes := [LF, LBRACE, LBRACE, PERIOD] + MENU_KEY + [RBRACE, RBRACE]

  /** A menu declared as sink is rendered away and becomes the sink content, under an added placeholder. */
  function MenuStageOut(p: PageV, rs: Resource, sp: SplitV): (r: Outcome<SplitV>)
    requires sp.SplitDone?
    ensures r.Done? ==> r.value.SplitDone?
    ensures !r.Panicked?
  {
    if p.menu.None? || !p.menu.value.sink then Done(sp)
    else if sp.sink != [] then Fail(MenuSinkClash)
    else
      var out := MRenderOut(DisposedMenu(p.menu.value), rs.title, 0);
      if !out.Rendered? then Fail(MenuFault(out))
      else Done(SplitDone(sp.noSink[MENU_KEY := []], MENU_KEY, SplitLines(out.text)))
  }

  function DisposedMenu(m: MenuV): MenuV {
    m.(keep := false, pageCount := if m.pageCount == 0 then 1 else m.pageCount)
  }

  function MenuStageState(p: PageV, rs: Resource, sp: SplitV): (r: PageV)
    requires sp.SplitDone? && p.sizer.Some?
    ensures r.sizer.Some?
  {
    if p.menu.None? || !p.menu.value.sink || sp.sink != [] then p
    else
      var p' := p.(menu := Some(MRenderState(DisposedMenu(p.menu.value), rs.title, 0)));
      if !MenuStageOut(p, rs, sp).Done? then p'
      else p'.(extra := MENU_PLACEHOLDER, sizer := Some(p.sizer.value.(sink := MENU_KEY)),
               values := sp.noSink[MENU_KEY := []])
  }

  function WithCursors(p: PageV, c: seq<u32>): PageV
    requires p.sizer.Some?
  {
    p.(sizer := Some(p.sizer.value.(crsrs := p.sizer.value.crsrs + c)))
  }

  /** The browse sizes reserved: none without a menu. */
  function ReservedSizes(p: PageV): MenuSizes {
    if p.menu.None? then MenuSizes(0, 0, 0, 0) else MSizes(p.menu.value.browse)
  }

  /** The packing of the sink into what the page leaves free, once rendered without it. */
  function PackingOf(p: PageV, remaining: u32, items: seq<Bytes>): Packing {
    var sizes := ReservedSizes(p);
    Pack(items, FirstNet(remaining, |items|, sizes.next), sizes.previous)
  }

  function FillOut(p: PageV, rs: Resource, sym: Bytes, sp: SplitV): Outcome<map<Bytes, Bytes>>
    requires sp.SplitDone? && p.sizer.Some?
  {
    var s := RenderOut(WithCursors(p, [0]), rs, sym, sp.noSink, 0);
    if s.Fail? then Fail(s.fault)
    else if s.Panicked? then Panicked
    else
      var remaining := CheckV(p.sizer.value.outputSize, s.value);
      if remaining.None? then Fail(CapacityExceeded)
      else
        var k := PackingOf(p, remaining.value, sp.items);
        if k.Overflow? then Fail(ItemTooLarge(k.field)) else Done(sp.noSink[sp.sink := SunkText(k)])
  }

  /** `aliased`: the values are the page's own map, so that what is written to them stays there. */
  function FillState(p: PageV, rs: Resource, sym: Bytes, sp: SplitV, aliased: bool): PageV
    requires sp.SplitDone? && p.sizer.Some?
  {
    var p1 := WithCursors(p, [0]);
    var s := RenderOut(p1, rs, sym, sp.noSink, 0);
    var p2 := RenderState(p1, rs, sym, sp.noSink, 0);
    if !s.Done? then p2
    else
      var remaining := CheckV(p.sizer.value.outputSize, s.value);
      if remaining.None? then p2
      else
        var k := PackingOf(p, remaining.value, sp.items);
        var p3 := WithCursors(p2, ClosedCursors(k.full));
        if k.Overflow? then p3
        else p3.(menu := if p3.menu.None? then None else Some(p3.menu.value.(pageCount := SunkCount(k))),
                 values := if aliased then sp.noSink[sp.sink := SunkText(k)] else p3.values)
  }

  /** `sp`: the split of the values. */
  function PrepareOut(p: PageV, sp: SplitV, rs: Resource, sym: Bytes): Outcome<map<Bytes, Bytes>> {
    if p.sizer.None? then Done(p.values)
    else if sp.SplitFail? then Fail(UnknownSymbol)
    else
      match MenuStageOut(p, rs, sp)
      case Fail(f) => Fail(f)
      case Panicked => Panicked
      case Done(sp') => FillOut(MenuStageState(p, rs, sp), rs, sym, sp')
  }

  function PrepareState(p: PageV, sp: SplitV, rs: Resource, sym: Bytes): PageV {
    if p.sizer.None? || sp.SplitFail? then p
    else
      match MenuStageOut(p, rs, sp)
      case Fail(_) => MenuStageState(p, rs, sp)
      case Panicked => p
      case Done(sp') => FillState(MenuStageState(p, rs, sp), rs, sym, sp', sp.sink == [])
  }

  /** Page.Render: prepare the values, then render page `idx`. */
  function PageOut(p: PageV, sp: SplitV, rs: Resource, sym: Bytes, idx: u16): Outcome<Bytes> {
    match PrepareOut(p, sp, rs, sym)
    case Fail(f) => Fail(f)
    case Panicked => Panicked
    case Done(values) => RenderOut(PrepareState(p, sp, rs, sym), rs, sym, values, idx)
  }

  function PageState(p: PageV, sp: SplitV, rs: Resource, sym: Bytes, idx: u16): PageV {
    var p' := PrepareState(p, sp, rs, sym);
    match PrepareOut(p, sp, rs, sym)
    case Fail(_) => p'
    case Panicked => p'
    case Done(values) => RenderState(p', rs, sym, values, idx)
  }

  /** Rendering changes neither the browse configuration nor the sizer. */
  lemma RenderKeeps(p: PageV, rs: Resource, sym: Bytes, values: map<Bytes, Bytes>)
    ensures var p' := RenderState(p, rs, sym, values, 0);
      && p'.sizer == p.sizer && p'.menu.Some? == p.menu.Some?
      && (p.menu.Some? ==> p'.menu.value.browse == p.menu.value.browse)
  {
  }

  // ----- mapping symbols -----

  function MapOut(p: PageV, value: Option<Bytes>, size: Option<u16>, key: Bytes): Option<Fault> {
    if value.None? || size.None? then Some(UnknownSymbol)
    else if size.value == 0 && p.sink.Some? && p.sink.value != key then Some(SinkTaken)
    else None
  }

  function MapState(p: PageV, value: Option<Bytes>, size: Option<u16>, key: Bytes): PageV {
    if MapOut(p, value, size, key).Some? then p
    else
      p.(values := p.values[key := value.value],
         sink := if size.value == 0 then Some(key) else p.sink,
         sizer := if p.sizer.None? then None
                  else Some(p.sizer.value.(
                    members := p.sizer.value.members[key := size.value],
                    sink := if size.value == 0 then key else p.sizer.value.sink,
                    total := Wrap32(p.sizer.value.total + size.value))))
  }

  function PReset(p: PageV): PageV {
    p.(sink := None, extra := [], values := map[],
       menu := if p.menu.None? then None else Some(MReset(p.menu.value.(items := [], sink := false))),
       sizer := if p.sizer.None? then None else Some(p.sizer.value.(crsrs := [])))
  }

  datatype JoinResult = Joined(text: Bytes, count: u16) | FieldTooLarge(field: nat)

  // ----- the object -----

  class Page {
    const cache: Caching.Cache
    const resource: Resource
    var cacheMap: map<Bytes, Bytes>
    var sink: Option<Bytes>
    var menu: Menu?
    var sizer: Sizer?
    var err: Option<Bytes>
    var extra: Bytes

    ghost predicate Valid()
      reads this, menu
    {
      menu != null ==> menu.titles == resource.title
    }

    ghost function View(): PageV
      reads this, menu, sizer
    {
      PageV(cacheMap, sink, if menu == null then None else Some(menu.View()),
            if sizer == null then None else Some(sizer.View()), err, extra)
    }

    constructor (cache: Caching.Cache, rs: Resource)
      ensures Valid() && this.cache == cache && resource == rs && menu == null && sizer == null
      ensures View() == PageV(map[], None, None, None, None, [])
    {
      this.cache, resource := cache, rs;
      cacheMap, sink, menu, sizer, err, extra := map[], None, null, null, None, [];
    }

    method WithMenu(m: Menu)
      modifies this, m
      ensures Valid() && menu == m && sizer == old(sizer)
      ensures View() == old(View()).(menu := Some(old(m.View())))
    {
      m.WithResource(resource.title);
      menu := m;
    }

    method WithSizer(s: Sizer)
      requires Valid()
      modifies this
      ensures Valid() && menu == old(menu) && sizer == s
      ensures View() == old(View()).(sizer := Some(s.View()))
    {
      sizer := s;
    }

    method WithError(e: Bytes)
      requires Valid()
      modifies this
      ensures Valid() && menu == old(menu) && sizer == old(sizer)
      ensures View() == old(View()).(err := Some(e))
    {
      err := Some(e);
    }

    method Map(key: Bytes) returns (fault: Option<Fault>)
      requires Valid()
      modifies this, sizer
      ensures Valid() && menu == old(menu) && sizer == old(sizer)
      ensures var v, l := Caching.CGet(cache.View(), key), if key in cache.Sizes then Some(cache.Sizes[key]) else None;
        fault == MapOut(old(View()), v, l, key) && View() == MapState(old(View()), v, l, key)
    {
      hide Caching.CGet;
      var v := cache.Get(key);
      if v.None? {
        return Some(UnknownSymbol);
      }
      var l := cache.ReservedSize(key);
      if l.None? {
        return Some(UnknownSymbol);
      }
      if l.value == 0 {
        if sink.Some? && sink.value != key {
          return Some(SinkTaken);
        }
        sink := Some(key);
      }
      cacheMap := cacheMap[key := v.value];
      if sizer != null {
        sizer.Set(key, l.value);
      }
      return None;
    }

    method Reset()
      requires Valid()
      modifies this, menu, sizer
      ensures Valid() && menu == old(menu) && sizer == old(sizer)
      ensures View() == PReset(old(View()))
    {
      sink := None;
      extra := [];
      cacheMap := map[];
      if menu != null {
        menu.Reset();
      }
      if sizer != null {
        sizer.Reset();
      }
    }

    /** Takes the sink's content out of the mapped values. */
    method Split() returns (r: SplitV)
      ensures Splits(cacheMap, cache.Sizes, r)
    {
      var sinkKey: Bytes := [];
      var sinkValues: seq<Bytes> := [];
      var noSinkValues := cacheMap;
      var todo := cacheMap.Keys;
      SplitStart(cacheMap, cache.Sizes);
      hide Emptied;
      while todo != {}
        invariant todo <= cacheMap.Keys
        invariant SplitSoFar(cacheMap, cache.Sizes, todo, sinkKey, sinkValues, noSinkValues)
        decreases todo
      {
        var k :| k in todo;
        var sz := cache.ReservedSize(k);
        SplitStep(cacheMap, cache.Sizes, todo, sinkKey, sinkValues, noSinkValues, k);
        if sz.None? {
          return SplitFail;
        }
        if sz.value == 0 {
          sinkKey := k;
          sinkValues := SplitLines(cacheMap[k]);
          noSinkValues := noSinkValues[k := []];
        }
        todo := todo - {k};
      }
      SplitEnd(cacheMap, cache.Sizes, sinkKey, sinkValues, noSinkValues);
      if sinkKey == [] {
        return SplitDone(cacheMap, [], []);
      }
      return SplitDone(noSinkValues, sinkKey, sinkValues);
    }

    method RenderTemplate(sym: Bytes, values: map<Bytes, Bytes>, idx: u16) returns (r: Outcome<Bytes>)
      requires Valid()
      ensures r == TemplateText(View(), resource, sym, values, idx)
    {
      var tpl := resource.template(sym);
      if tpl.None? {
        return Fail(NoTemplate);
      }
      var full := Composed(tpl.value, extra, err);
      var paged := values;
      if sizer != null {
        var at := sizer.GetAt(values, idx);
        match at {
          case NoMore => return Fail(NoMoreValues);
          case Panic => return Panicked;
          case Values(v) => paged := v;
        }
      } else if idx > 0 {
        return Fail(SizerNeeded);
      }
      return Expand(resource, full, paged);
    }

    /** Packs the sink items into pages; the sizer gets a cursor for each page closed. */
    method JoinSink(sinkValues: seq<Bytes>, remaining: u32, menuSizes: MenuSizes) returns (r: JoinResult)
      requires sizer != null
      modifies sizer
      ensures var k := Pack(sinkValues, FirstNet(remaining, |sinkValues|, menuSizes.next), menuSizes.previous);
        && r == (if k.Overflow? then FieldTooLarge(k.field) else Joined(SunkText(k), SunkCount(k)))
        && sizer.View() == old(sizer.View()).(crsrs := old(sizer.crsrs) + ClosedCursors(k.full))
    {
      ghost var net, previous := FirstNet(remaining, |sinkValues|, menuSizes.next), menuSizes.previous;
      ghost var sizer0 := sizer.View();
      hide Pack, JoinedSoFar, ClosedCursors, FirstNet, SunkText, SunkCount, Wrap32, Wrap16, TrimLF, CursorsAdded;
      var l: int := 0;
      var count: u16 := 0;
      var tb: Bytes, rb: Bytes := [], [];
      var netRemaining: u32 := Wrap32(remaining - 1);
      JoinStarts(sinkValues, remaining, menuSizes.next, previous, sizer0);
      if |sinkValues| > 1 {
        netRemaining := Wrap32(netRemaining - Wrap32(menuSizes.next + 1));
      }
      var i := 0;
      while i < |sinkValues|
        invariant 0 <= i <= |sinkValues|
        invariant JoinedSoFar(sinkValues, i, net, previous, l, netRemaining, count, tb, rb)
        invariant CursorsAdded(sizer0, sizer.View(), sinkValues, i, net, previous)
      {
        var v := sinkValues[i];
        ghost var l0, sizer1 := l, sizer.View();
        l := l + |v|;
        if Wrap32(l) > Wrap32(netRemaining - 1) {
          if |tb| == 0 {
            JoinStops(sinkValues, i, net, previous, l0, netRemaining, count, tb, rb, sizer0, sizer1);
            return FieldTooLarge(i);
          }
          JoinCloses(sinkValues, i, net, previous, l0, netRemaining, count, tb, rb, sizer0, sizer1);
          rb := rb + tb;
          rb := rb + [LF];
          var c := Wrap32(|rb|);
          sizer.AddCursor(c);
          tb := [];
          l := |v|;
          if count == 0 {
            netRemaining := Wrap32(netRemaining - Wrap32(menuSizes.previous + 1));
          }
          count := Wrap16(count + 1);
        } else {
          JoinTakes(sinkValues, i, net, previous, l0, netRemaining, count, tb, rb, sizer0, sizer1);
        }
        if |tb| > 0 {
          tb := tb + [NUL];
          l := l + 1;
        }
        tb := tb + v;
        i := i + 1;
      }
      JoinEnds(sinkValues, net, previous, l, netRemaining, count, tb, rb, sizer0, sizer.View());
      if |tb| > 0 {
        rb := rb + tb;
        count := Wrap16(count + 1);
      }
      return Joined(TrimLF(rb), count);
    }

    /** The method `render` of the source. */
    method RenderValues(sym: Bytes, values: map<Bytes, Bytes>, idx: u16) returns (r: Outcome<Bytes>)
      requires Valid()
      modifies menu
      ensures Valid()
      ensures r == RenderOut(old(View()), resource, sym, values, idx)
      ensures View() == RenderState(old(View()), resource, sym, values, idx)
    {
      hide TemplateText, MRenderOut, MRenderState;
      r := RenderTemplate(sym, values, idx);
      if !r.Done? {
        return;
      }
      var text := r.value;
      if menu != null {
        var s := menu.Render(idx);
        if !s.Rendered? {
          return Fail(MenuFault(s));
        }
        if |s.text| > 0 {
          text := text + [LF] + s.text;
        }
      }
      if sizer != null {
        var ok := sizer.Check(text);
        if ok.None? {
          return Fail(LimitExceeded);
        }
      }
      return Done(text);
    }

    /** Renders the menu away, its lines to be used as sink items. */
    method ApplyMenuSink() returns (out: MenuOut)
      requires Valid() && menu != null
      modifies menu
      ensures Valid()
      ensures out == MRenderOut(DisposedMenu(old(menu.View())), resource.title, 0)
      ensures menu.View() == MRenderState(DisposedMenu(old(menu.View())), resource.title, 0)
    {
      hide MRenderOut, MRenderState;
      menu.WithDispose();
      menu.WithPages();
      out := menu.Render(0);
    }

    /** The part of `prepare` that turns a menu declared as sink into sink content. */
    method StageMenu(sp: SplitV) returns (r: Outcome<SplitV>)
      requires Valid() && sizer != null && sp.SplitDone?
      modifies this, menu, sizer
      ensures Valid() && menu == old(menu) && sizer == old(sizer)
      ensures r == MenuStageOut(old(View()), resource, sp)
      ensures View() == MenuStageState(old(View()), resource, sp)
    {
      hide MRenderOut, MRenderState, DisposedMenu;
      if menu == null || !menu.sink {
        return Done(sp);
      }
      if sp.sink != [] {
        return Fail(MenuSinkClash);
      }
      var out := ApplyMenuSink();
      if !out.Rendered? {
        return Fail(MenuFault(out));
      }
      extra := MENU_PLACEHOLDER;
      sizer.sink := MENU_KEY;
      cacheMap := sp.noSink[MENU_KEY := []];
      return Done(SplitDone(cacheMap, MENU_KEY, SplitLines(out.text)));
    }

    /** The part of `prepare` that measures the page without its sink and packs the sink into the rest. */
    method Fill(sym: Bytes, sp: SplitV, aliased: bool) returns (r: Outcome<map<Bytes, Bytes>>)
      requires Valid() && sizer != null && sp.SplitDone?
      modifies this, menu, sizer
      ensures Valid() && menu == old(menu) && sizer == old(sizer)
      ensures r == FillOut(old(View()), resource, sym, sp)
      ensures View() == FillState(old(View()), resource, sym, sp, aliased)
    {
      hide RenderOut, RenderState, MSizes, Pack, FirstNet, ClosedCursors, SunkText, SunkCount, CheckV;
      ghost var p1 := WithCursors(View(), [0]);
      RenderKeeps(p1, resource, sym, sp.noSink);
      sizer.AddCursor(0);
      var s := RenderValues(sym, sp.noSink, 0);
      if !s.Done? {
        return if s.Fail? then Fail(s.fault) else Panicked;
      }
      var remaining := sizer.Check(s.value);
      if remaining.None? {
        return Fail(CapacityExceeded);
      }
      var menuSizes := MenuSizes(0, 0, 0, 0);
      if menu != null {
        menuSizes := menu.Sizes();
      }
      var joined := JoinSink(sp.items, remaining.value, menuSizes);
      if joined.FieldTooLarge? {
        return Fail(ItemTooLarge(joined.field));
      }
      var noSinkValues := sp.noSink[sp.sink := joined.text];
      if aliased {
        cacheMap := noSinkValues;
      }
      if menu != null {
        menu.WithPageCount(joined.count);
      }
      return Done(noSinkValues);
    }

    method Prepare(sym: Bytes) returns (r: Outcome<map<Bytes, Bytes>>, ghost split: SplitV)
      requires Valid()
      modifies this, menu, sizer
      ensures Valid() && menu == old(menu) && sizer == old(sizer)
      ensures sizer != null ==> Splits(old(cacheMap), cache.Sizes, split)
      ensures r == PrepareOut(old(View()), split, resource, sym)
      ensures View() == PrepareState(old(View()), split, resource, sym)
    {
      hide MenuStageOut, MenuStageState, FillOut, FillState, Splits;
      if sizer == null {
        return Done(cacheMap), SplitFail;
      }
      var sp := Split();
      split := sp;
      if sp.SplitFail? {
        return Fail(UnknownSymbol), split;
      }
      var staged := StageMenu(sp);
      match staged {
        case Fail(f) => return Fail(f), split;
        case Panicked => return Panicked, split;
        case Done(sp') => r := Fill(sym, sp', sp.sink == []);
      }
    }

    /** `split` is the split of the values that this render has made. */
    method Render(sym: Bytes, idx: u16) returns (r: Outcome<Bytes>, ghost split: SplitV)
      requires Valid()
      modifies this, menu, sizer
      ensures Valid() && menu == old(menu) && sizer == old(sizer)
      ensures sizer != null ==> Splits(old(cacheMap), cache.Sizes, split)
      ensures r == PageOut(old(View()), split, resource, sym, idx)
      ensures View() == PageState(old(View()), split, resource, sym, idx)
    {
      hide PrepareOut, PrepareState, RenderOut, RenderState, Splits;
      var values;
      values, split := Prepare(sym);
      match values {
        case Fail(f) => return Fail(f), split;
        case Panicked => return Panicked, split;
        case Done(v) => r := RenderValues(sym, v, idx);
      }
    }
  }

  // ----- steps of the loops -----

  /** What Split has found among the keys already visited. */
  ghost predicate SplitSoFar(values: map<Bytes, Bytes>, sizes: map<Bytes, u16>, todo: set<Bytes>,
                             sinkKey: Bytes, sinkValues: seq<Bytes>, noSink: map<Bytes, Bytes>)
  {
    && (forall k :: k in values && k !in todo ==> k in sizes)
    && noSink == Emptied(values, sizes, values.Keys - todo)
    && if sinkKey != [] then sinkKey in values && sinkKey in sizes && sizes[sinkKey] == 0 && sinkValues == SplitLines(values[sinkKey])
       else
         || (forall k :: k in values && k !in todo ==> sizes[k] != 0)
         || ([] in values && [] !in todo && sizes[[]] == 0)
  }

  lemma SplitStart(values: map<Bytes, Bytes>, sizes: map<Bytes, u16>)
    ensures SplitSoFar(values, sizes, values.Keys, [], [], values)
  {
  }

  lemma SplitStep(values: map<Bytes, Bytes>, sizes: map<Bytes, u16>, todo: set<Bytes>,
                  sinkKey: Bytes, sinkValues: seq<Bytes>, noSink: map<Bytes, Bytes>, k: Bytes)
    requires todo <= values.Keys && k in todo
    requires SplitSoFar(values, sizes, todo, sinkKey, sinkValues, noSink)
    ensures k !in sizes ==> Splits(values, sizes, SplitFail)
    ensures k in sizes && sizes[k] != 0 ==>
      SplitSoFar(values, sizes, todo - {k}, sinkKey, sinkValues, noSink)
    ensures k in sizes && sizes[k] == 0 ==>
      SplitSoFar(values, sizes, todo - {k}, k, SplitLines(values[k]), noSink[k := []])
  {
    if k in sizes && sizes[k] != 0 {
      assert Emptied(values, sizes, values.Keys - (todo - {k})) == noSink;
    } else if k in sizes {
      assert Emptied(values, sizes, values.Keys - (todo - {k})) == noSink[k := []];
    }
  }

  lemma SplitEnd(values: map<Bytes, Bytes>, sizes: map<Bytes, u16>,
                 sinkKey: Bytes, sinkValues: seq<Bytes>, noSink: map<Bytes, Bytes>)
    requires SplitSoFar(values, sizes, {}, sinkKey, sinkValues, noSink)
    ensures Splits(values, sizes, if sinkKey == [] then SplitDone(values, [], []) else SplitDone(noSink, sinkKey, sinkValues))
  {
    assert values.Keys - {} == values.Keys;
  }

  /** The mapped symbols without a size limit are at most one. */
  ghost predicate OneSink(values: map<Bytes, Bytes>, sizes: map<Bytes, u16>) {
    forall j, k :: j in values && k in values && j in sizes && k in sizes && sizes[j] == 0 && sizes[k] == 0 ==> j == k
  }

  /** With at most one symbol without a size limit the split does not depend on the order of the map. */
  lemma OneSplit(values: map<Bytes, Bytes>, sizes: map<Bytes, u16>, sp: SplitV, other: SplitV)
    requires OneSink(values, sizes) && Splits(values, sizes, sp) && Splits(values, sizes, other)
    ensures sp == other
  {
  }

  /** The variables of joinSink for a packing: counters and buffers. */
  predicate PackedAs(k: Packing, l: int, netRemaining: u32, count: u16, tb: Bytes, rb: Bytes) {
    && k.Packed?
    && tb == PageText(k.page) && l == |tb| && rb == ClosedText(k.full)
    && netRemaining == k.net && count == Wrap16(|k.full|)
    && (k.page == [] || Opened(k.page))
  }

  /** The sizer has received the cursors of the closed pages, and nothing else changed. */
  predicate CursorsOf(before: SizerV, after: SizerV, k: Packing) {
    after == before.(crsrs := before.crsrs + ClosedCursors(k.full))
  }

  ghost predicate JoinedSoFar(items: seq<Bytes>, n: nat, net: u32, previous: u32,
                              l: int, netRemaining: u32, count: u16, tb: Bytes, rb: Bytes)
    requires n <= |items|
  {
    PackedAs(Pack(items[..n], net, previous), l, netRemaining, count, tb, rb)
  }

  ghost predicate CursorsAdded(before: SizerV, after: SizerV, items: seq<Bytes>, n: nat, net: u32, previous: u32)
    requires n <= |items|
  {
    CursorsOf(before, after, Pack(items[..n], net, previous))
  }

  lemma PackNext(items: seq<Bytes>, n: nat, net: u32, previous: u32)
    requires n < |items|
    ensures Pack(items[..n + 1], net, previous) == PackItem(Pack(items[..n], net, previous), n, items[n], previous)
  {
    assert items[..n + 1][..n] == items[..n];
  }

  /** The buffer after an item has been written behind it. */
  lemma WriteItem(page: seq<Bytes>, v: Bytes)
    requires page == [] || Opened(page)
    ensures PageText(page) == [] <==> page == []
    ensures PageText(PlaceOn(page, v)) == (if |PageText(page)| > 0 then PageText(page) + [NUL] else PageText(page)) + v
    ensures PlaceOn(page, v) == [] || Opened(PlaceOn(page, v))
  {
    OpenedText(page);
    JoinSnoc(page, v, NUL);
    OpenedText([]);
  }

  lemma JoinStarts(items: seq<Bytes>, remaining: u32, next: u32, previous: u32, sizer: SizerV)
    ensures var net := FirstNet(remaining, |items|, next);
      && net == (if |items| > 1 then Wrap32(Wrap32(remaining - 1) - Wrap32(next + 1)) else Wrap32(remaining - 1))
      && JoinedSoFar(items, 0, net, previous, 0, net, 0, [], [])
      && CursorsAdded(sizer, sizer, items, 0, net, previous)
  {
    hide Wrap32, FirstNet, Pack, JoinedSoFar, CursorsAdded;
    NetStarts(remaining, |items|, next);
    NothingPacked(items, FirstNet(remaining, |items|, next), previous, sizer);
  }

  lemma NetStarts(remaining: u32, count: nat, next: u32)
    ensures FirstNet(remaining, count, next) ==
      if count > 1 then Wrap32(Wrap32(remaining - 1) - Wrap32(next + 1)) else Wrap32(remaining - 1)
  {
    hide Wrap32;
    WrapSum(remaining - 1, next + 1);
    WrapSum(Wrap32(remaining - 1), next + 1);
  }

  lemma NothingPacked(items: seq<Bytes>, net: u32, previous: u32, sizer: SizerV)
    ensures JoinedSoFar(items, 0, net, previous, 0, net, 0, [], [])
    ensures CursorsAdded(sizer, sizer, items, 0, net, previous)
  {
    hide Wrap32, PageText;
    OpenedText([]);
    assert items[..0] == [];
    assert sizer.crsrs + [] == sizer.crsrs;
  }

  lemma TakeEffect(k: Packing, n: nat, v: Bytes, previous: u32,
                   l: int, netRemaining: u32, count: u16, tb: Bytes, rb: Bytes, before: SizerV, after: SizerV)
    requires PackedAs(k, l, netRemaining, count, tb, rb) && CursorsOf(before, after, k)
    requires Wrap32(l + |v|) <= Wrap32(netRemaining - 1)
    ensures var k' := PackItem(k, n, v, previous);
      && CursorsOf(before, after, k')
      && if |tb| > 0 then PackedAs(k', l + |v| + 1, netRemaining, count, tb + [NUL] + v, rb)
         else PackedAs(k', l + |v|, netRemaining, count, tb + v, rb)
  {
    assert TakesItem(k.page, v, k.net);
    WriteItem(k.page, v);
    hide PageText, ClosedText, PlaceOn, ClosedCursors, Opened, TakesItem, Wrap32, Wrap16;
  }

  lemma JoinTakes(items: seq<Bytes>, n: nat, net: u32, previous: u32,
                  l: int, netRemaining: u32, count: u16, tb: Bytes, rb: Bytes, before: SizerV, after: SizerV)
    requires n < |items| && JoinedSoFar(items, n, net, previous, l, netRemaining, count, tb, rb)
    requires CursorsAdded(before, after, items, n, net, previous)
    requires Wrap32(l + |items[n]|) <= Wrap32(netRemaining - 1)
    ensures
      if |tb| > 0
      then JoinedSoFar(items, n + 1, net, previous, l + |items[n]| + 1, netRemaining, count, tb + [NUL] + items[n], rb)
      else JoinedSoFar(items, n + 1, net, previous, l + |items[n]|, netRemaining, count, tb + items[n], rb)
    ensures CursorsAdded(before, after, items, n + 1, net, previous)
  {
    hide Pack, PackItem, PackedAs, CursorsOf;
    PackNext(items, n, net, previous);
    TakeEffect(Pack(items[..n], net, previous), n, items[n], previous, l, netRemaining, count, tb, rb, before, after);
  }

  lemma ClosedSnoc(full: seq<seq<Bytes>>, page: seq<Bytes>)
    ensures ClosedText(full + [page]) == ClosedText(full) + PageText(page) + [LF]
    ensures ClosedCursors(full + [page]) == ClosedCursors(full) + [Wrap32(|ClosedText(full + [page])|)]
  {
    assert (full + [page])[..|full|] == full;
  }

  /** The packing after closing the open page for `v`. */
  lemma CloseEffect(k: Packing, n: nat, v: Bytes, previous: u32,
                    l: int, netRemaining: u32, count: u16, tb: Bytes, rb: Bytes)
    requires PackedAs(k, l, netRemaining, count, tb, rb)
    requires Wrap32(l + |v|) > Wrap32(netRemaining - 1) && tb != []
    ensures PackItem(k, n, v, previous) == Packed(k.full + [k.page], PlaceOn([], v), NextNet(k.full, k.net, previous))
    ensures PackedAs(PackItem(k, n, v, previous), |v|,
              if count == 0 then Wrap32(netRemaining - Wrap32(previous + 1)) else netRemaining,
              Wrap16(count + 1), [] + v, rb + tb + [LF])
  {
    assert !TakesItem(k.page, v, k.net);
    OpenedText([]);
    WriteItem(k.page, v);
    WriteItem([], v);
    WrapSum(k.net, previous + 1);
    Wrap16Sum(|k.full|, 1);
    ClosedSnoc(k.full, k.page);
    hide TakesItem, PageText, ClosedText, ClosedCursors, Wrap16, Wrap32, PlaceOn, Opened;
  }

  lemma CursorEffect(k: Packing, page: seq<Bytes>, rest: seq<Bytes>, net: u32, rb: Bytes, before: SizerV, after: SizerV)
    requires CursorsOf(before, after, k) && ClosedText(k.full + [page]) == rb
    ensures CursorsOf(before, after.(crsrs := after.crsrs + [Wrap32(|rb|)]), Packed(k.full + [page], rest, net))
  {
    ClosedSnoc(k.full, page);
    hide ClosedText, ClosedCursors, Wrap32;
  }

  lemma JoinCloses(items: seq<Bytes>, n: nat, net: u32, previous: u32,
                   l: int, netRemaining: u32, count: u16, tb: Bytes, rb: Bytes, before: SizerV, after: SizerV)
    requires n < |items| && JoinedSoFar(items, n, net, previous, l, netRemaining, count, tb, rb)
    requires CursorsAdded(before, after, items, n, net, previous)
    requires Wrap32(l + |items[n]|) > Wrap32(netRemaining - 1) && tb != []
    ensures JoinedSoFar(items, n + 1, net, previous, |items[n]|,
              if count == 0 then Wrap32(netRemaining - Wrap32(previous + 1)) else netRemaining,
              Wrap16(count + 1), [] + items[n], rb + tb + [LF])
    ensures CursorsAdded(before, after.(crsrs := after.crsrs + [Wrap32(|rb + tb + [LF]|)]), items, n + 1, net, previous)
  {
    var k, v := Pack(items[..n], net, previous), items[n];
    PackNext(items, n, net, previous);
    CloseEffect(k, n, v, previous, l, netRemaining, count, tb, rb);
    ClosedTextOf(PackItem(k, n, v, previous));
    hide Pack, PackItem, CursorsOf, Wrap32, Wrap16, ClosedText, PageText;
    CursorEffect(k, k.page, PlaceOn([], v), NextNet(k.full, k.net, previous), rb + tb + [LF], before, after);
    hide PackedAs;
  }

  lemma ClosedTextOf(k: Packing)
    ensures forall l, netRemaining, count, tb, rb :: PackedAs(k, l, netRemaining, count, tb, rb) ==> rb == ClosedText(k.full)
  {
  }

  lemma {:induction false} OverflowSticks(items: seq<Bytes>, i: nat, net: u32, previous: u32)
    requires i <= |items| && Pack(items[..i], net, previous).Overflow?
    ensures Pack(items, net, previous) == Pack(items[..i], net, previous)
    decreases |items|
  {
    if i == |items| {
      assert items[..i] == items;
    } else {
      assert items[..|items| - 1][..i] == items[..i];
      OverflowSticks(items[..|items| - 1], i, net, previous);
    }
  }

  lemma JoinStops(items: seq<Bytes>, n: nat, net: u32, previous: u32,
                  l: int, netRemaining: u32, count: u16, tb: Bytes, rb: Bytes, before: SizerV, after: SizerV)
    requires n < |items| && JoinedSoFar(items, n, net, previous, l, netRemaining, count, tb, rb)
    requires CursorsAdded(before, after, items, n, net, previous)
    requires Wrap32(l + |items[n]|) > Wrap32(netRemaining - 1) && tb == []
    ensures var k := Pack(items, net, previous);
      && k.Overflow? && k.field == n
      && after == before.(crsrs := before.crsrs + ClosedCursors(k.full))
  {
    var k := Pack(items[..n], net, previous);
    PackNext(items, n, net, previous);
    WriteItem(k.page, items[n]);
    assert !TakesItem(k.page, items[n], k.net);
    OverflowSticks(items, n + 1, net, previous);
    hide Pack, PageText, ClosedText, ClosedCursors, TakesItem, Opened, PlaceOn, Wrap32, Wrap16;
  }

  lemma JoinEnds(items: seq<Bytes>, net: u32, previous: u32,
                 l: int, netRemaining: u32, count: u16, tb: Bytes, rb: Bytes, before: SizerV, after: SizerV)
    requires JoinedSoFar(items, |items|, net, previous, l, netRemaining, count, tb, rb)
    requires CursorsAdded(before, after, items, |items|, net, previous)
    ensures var k := Pack(items, net, previous);
      && k.Packed?
      && SunkText(k) == TrimLF(if |tb| > 0 then rb + tb else rb)
      && SunkCount(k) == (if |tb| > 0 then Wrap16(count + 1) else count)
      && after == before.(crsrs := before.crsrs + ClosedCursors(k.full))
  {
    var k := Pack(items, net, previous);
    assert items[..|items|] == items;
    OpenedText(k.page);
    Wrap16Sum(|k.full|, 1);
    assert |tb| == 0 ==> rb + tb == rb;
    hide Pack, PageText, ClosedText, Wrap16, TrimLF, ClosedCursors, Opened;
  }
}
