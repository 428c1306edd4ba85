/** Pages without a sink, on a sizer that remembers one: a reset of the page does not make the sizer forget it. */
module StaleSinks {
  import opened Common
  import opened Menus
  import opened Sizing
  import opened Paging
  import opened Resources
  import opened Templates
  import opened Rendering
  import opened PageProofs
  import opened BrowseErrors
  import opened PageExamples

  /** What the sizer makes of values whose sink it takes to be `sink`: the first page of that value. */
  function Cut(values: map<Bytes, Bytes>, sink: Bytes): map<Bytes, Bytes> {
    if sink == [] || sink !in values then values else values[sink := PageAt(values[sink], 0)]
  }

  /** A value is its own first page exactly when no line ends in it, except at its very start, and no NUL is in it. */
  lemma {:induction false} WholeIff(v: Bytes)
    ensures PageAt(v, 0) == v <==> NUL !in v && (LF in v ==> v[0] == LF)
  {
    hide IndexOf, Replace;
    var nl := IndexOf(v, LF);
    assert v[0..] == v;
    ReplaceNothing(v, NUL, LF);
    if nl > 0 {
      assert |PageAt(v, 0)| == nl < |v|;
      assert v[0] in v[..nl];
    }
  }

  lemma CutIsWholeIff(values: map<Bytes, Bytes>, sink: Bytes)
    ensures Cut(values, sink) == values <==>
      sink == [] || sink !in values || (NUL !in values[sink] && (LF in values[sink] ==> values[sink][0] == LF))
  {
    if sink in values {
      hide PageAt;
      WholeIff(values[sink]);
      assert Cut(values, sink)[sink] == if sink == [] then values[sink] else PageAt(values[sink], 0);
      if PageAt(values[sink], 0) == values[sink] {
        assert values[sink := values[sink]] == values;
      }
    }
  }

  /** A reset page with a sizer, on which nothing is a sink. */
  predicate Sinkless(p: PageV, rs: Resource, sym: Bytes) {
    && p.sizer.Some? && p.sizer.value.crsrs == [] && PlainPage(p, rs, sym)
    && (p.menu.Some? ==> !p.menu.value.sink)
  }

  lemma CutAtStart(sizer: SizerV, values: map<Bytes, Bytes>)
    requires sizer.crsrs == [0]
    ensures GetAtV(sizer, values, 0) == Values(Cut(values, sizer.sink))
  {
    hide PageAt;
  }

  /** The values that a page without a sink is prepared with: those mapped. */
  lemma {:induction false} SinklessPrepared(p: PageV, rs: Resource, sym: Bytes)
    requires Sinkless(p, rs, sym)
    ensures var sp := SplitDone(p.values, [], []);
      PrepareOut(p, sp, rs, sym).Done? ==>
        var p' := PrepareState(p, sp, rs, sym);
        && PrepareOut(p, sp, rs, sym).value == p.values[[] := []]
        && p'.sizer == Some(p.sizer.value.(crsrs := [0])) && p'.extra == p.extra && p'.err == p.err
  {
    hide MRenderOut, MRenderState, Composed, Compile, Execute, GetAtV, CheckV, MSizes, FirstNet;
    NothingFlattened();
    var none: seq<u32> := [];
    var first: seq<u32> := [0];
    assert none + first == first && first + none == first;
  }

  lemma NothingFlattened()
    ensures forall net, previous :: Pack([], net, previous) == Packed([], [], net)
    ensures forall net :: SunkText(Packed([], [], net)) == []
    ensures ClosedCursors([]) == []
  {
  }

  /**
   A page without a sink shows its template with the mapped values, except that a value under the name the sizer
   remembers is cut to its first page.
   */
  lemma {:induction false} SinklessText(p: PageV, rs: Resource, sym: Bytes)
    requires Sinkless(p, rs, sym) && PrepareOut(p, SplitDone(p.values, [], []), rs, sym).Done?
    ensures var sp := SplitDone(p.values, [], []);
      TemplateText(PrepareState(p, sp, rs, sym), rs, sym, PrepareOut(p, sp, rs, sym).value, 0) ==
        Expand(rs, Composed(rs.template(sym).value, p.extra, p.err), Cut(p.values[[] := []], p.sizer.value.sink))
  {
    hide PrepareOut, PrepareState, Expand, Composed, Compile, GetAtV, Cut;
    SinklessPrepared(p, rs, sym);
    CutAtStart(p.sizer.value.(crsrs := [0]), p.values[[] := []]);
  }

  /** `a`, a newline, `b` */
  const TWO_LINES: Bytes := [A, LF, B]

  /**
   Such a value: a symbol is mapped as sink, the page is reset, and the symbol is mapped again with a limit. Only its first
   line is shown.
   */
  lemma {:induction false} StaleSinkCuts(p: PageV, values: map<Bytes, Bytes>)
    requires p.sizer.Some? && SYMBOL in values
    ensures var q := MapAll(PReset(p), values, map[SYMBOL := 0], [SYMBOL]);
      var r := MapAll(PReset(q), map[SYMBOL := TWO_LINES], map[SYMBOL := 20], [SYMBOL]);
      && r.values == map[SYMBOL := TWO_LINES] && r.sink == None
      && r.sizer.Some? && r.sizer.value.sink == SYMBOL
      && Cut(r.values, r.sizer.value.sink) == map[SYMBOL := [A]]
  {
    hide MReset, Wrap32, PageAt;
    var none: seq<Bytes>, one: seq<Bytes> := [], [SYMBOL];
    assert one[..0] == none;
    FirstLine();
    assert map[SYMBOL := TWO_LINES][SYMBOL := [A]] == map[SYMBOL := [A]];
  }

  lemma FirstLine()
    ensures PageAt(TWO_LINES, 0) == [A]
  {
    var v := TWO_LINES;
    assert v[0..] == v && v[..1] == [A] && v[1..][0] == LF;
    assert IndexOf(v[1..], LF) == 0 && IndexOf(v, LF) == 1;
    var one: Bytes := [A];
    assert one[1..] == [];
  }
}
