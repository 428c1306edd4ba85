/** Error messages on a page: what they do to its template, and how long they stay. */
module PendingErrors {
  import opened Menus
  import opened Common
  import opened Codec
  import opened States
  import opened Caching
  import opened Resources
  import opened Templates
  import opened Rendering
  import opened Navigation
  import opened Running
  import opened Dispatch

  // ----- actions in a message -----

  /** A message around a placeholder shows the value of that symbol, and fails the page when there is none. */
  lemma MessageExpands(rs: Resource, a: Bytes, key: Bytes, c: Bytes, values: map<Bytes, Bytes>)
    requires Apart(a) && FieldName(key) && !Doubled(c, LBRACE)
    ensures Expand(rs, a + (Placeholder(key) + c), values) ==
      if key in values then Done(a + values[key] + c) else Fail(MissingKey)
  {
    hide Compile, Execute;
    CompileText(a, Placeholder(key) + c);
    PlaceholderCompiles(key, c);
    LiteralIff(c);
    ExecuteLits(a, values);
    ExecuteLits(c, values);
    AheadTwice(Lits(a), [Ref(key)], Plain(Lits(c)));
    ExecuteAppend(Lits(a) + [Ref(key)], Lits(c), values);
    ExecuteAppend(Lits(a), [Ref(key)], values);
    ExecuteRef(key, values);
  }

  lemma ExecuteRef(key: Bytes, values: map<Bytes, Bytes>)
    ensures Execute([Ref(key)], values) == if key in values then Some(values[key]) else None
  {
    assert [Ref(key)][1..] == [];
    if key in values {
      assert values[key] + [] == values[key];
    }
  }

  /** A message that ends in `{{'`. */
  predicate BreaksPages(err: Option<Bytes>) {
    err.Some? && |err.value| >= 3 &&
    var n := |err.value| - 3;
    err.value[n..] == OPENING + [QUOTE] && Apart(err.value[..n])
  }

  /** With such a message no template can be rendered, whatever its symbol, values and page. */
  lemma BrokenTemplate(p: PageV, rs: Resource, sym: Bytes, values: map<Bytes, Bytes>, idx: u16)
    requires BreaksPages(p.err)
    ensures !TemplateText(p, rs, sym, values, idx).Done?
    ensures rs.template(sym).Some? && PagedValues(p.sizer, values, idx).Done? ==>
      TemplateText(p, rs, sym, values, idx) == Fail(BadTemplate)
  {
    hide Compile, PagedValues;
    var e := p.err.value;
    var a := e[..|e| - 3];
    if rs.template(sym).Some? {
      var full := rs.template(sym).value + p.extra;
      QuoteBreaks(a, []);
      QuoteBreaks(a, [LF] + full);
      assert e == a + (OPENING + [QUOTE] + []);
      assert e + [LF] + full == a + (OPENING + [QUOTE] + ([LF] + full));
    }
  }

  /** Nor can any page. */
  lemma BrokenPage(p: PageV, sp: SplitV, rs: Resource, sym: Bytes, idx: u16)
    requires BreaksPages(p.err)
    ensures !PageOut(p, sp, rs, sym, idx).Done?
  {
    var p' := PrepareState(p, sp, rs, sym);
    PrepareKeepsError(p, sp, rs, sym);
    hide PrepareOut, PrepareState, TemplateText, BreaksPages;
    if PrepareOut(p, sp, rs, sym).Done? {
      BrokenTemplate(p', rs, sym, PrepareOut(p, sp, rs, sym).value, idx);
    }
  }

  lemma PrepareKeepsError(p: PageV, sp: SplitV, rs: Resource, sym: Bytes)
    ensures PrepareState(p, sp, rs, sym).err == p.err
  {
    hide RenderOut, TemplateText, MRenderOut, MRenderState, PackingOf, MenuStageOut;
  }

  // ----- input that breaks the pages -----

  /** `invalid input: '` */
  const COMPLAINT: Bytes := [105, 110, 118, 97, 108, 105, 100, 32, 105, 110, 112, 117, 116, 58, 32, 39]

  /** Complaints about input read as they do in the source. */
  ghost predicate Complains(rs: Resource) {
    forall input :: rs.message(InvalidInput(input)) == COMPLAINT + input + [39]
  }

  lemma ComplaintBreaks(rs: Resource, b: Bytes)
    requires Complains(rs) && Apart(b)
    ensures BreaksPages(Some(rs.message(InvalidInput(b + OPENING))))
  {
    var e := COMPLAINT + (b + OPENING) + [QUOTE];
    assert e == COMPLAINT + b + (OPENING + [QUOTE]);
    assert e[..|e| - 3] == COMPLAINT + b;
    ComplaintApart(b);
  }

  /** `1` and two opening braces are such an input. */
  lemma OneAndBraces(rs: Resource)
    requires Complains(rs)
    ensures BreaksPages(Some(rs.message(InvalidInput([49, 123, 123]))))
  {
    assert [49] + OPENING == [49, 123, 123];
    ComplaintBreaks(rs, [49]);
  }

  lemma ComplaintApart(b: Bytes)
    requires Apart(b)
    ensures Apart(COMPLAINT + b)
  {
    NotDoubled(COMPLAINT, b);
    assert b != [] ==> (COMPLAINT + b)[|COMPLAINT + b| - 1] == b[|b| - 1];
    assert b == [] ==> COMPLAINT + b == COMPLAINT;
  }

  lemma {:induction false} NotDoubled(a: Bytes, b: Bytes)
    requires LBRACE !in a && !Doubled(b, LBRACE)
    ensures !Doubled(a + b, LBRACE)
  {
    if a == [] {
      assert a + b == b;
    } else {
      assert (a + b)[0] == a[0] && (a + b)[1..] == a[1..] + b;
      NotDoubled(a[1..], b);
    }
  }

  /**
   Input that ends in `{{` and that nothing matches sends the machine to the catch node, as any other such input,
   but there no page can be rendered.
   */
  lemma {:induction false} UnmatchedInputBreaksPages(rs: Resource, v: VmV, b: Bytes, code: Bytes)
    requires Complains(rs) && Apart(b) && Idle(v) && v.st.input == Some(b + OPENING)
    requires Where(v.st) != [] && Where(v.st) != CATCH_NODE && |v.st.path| <= MAX_LEVEL && rs.code(CATCH_NODE) == Some(code)
    ensures var w := Arrived(Blamed(rs, Reading(v)), CATCH_NODE);
      && Settle(rs, Onward(Reading(v), [])) == Onward(Blamed(rs, Reading(v)), MOVE_CATCH)
      && StepOf(rs, Blamed(rs, Reading(v)), MOVE_CATCH) == Settle(rs, Onward(w, code))
      && w.st.path == v.st.path + [CATCH_NODE]
      && forall sp, sym, idx: u16 :: !PageOut(w.pg, sp, rs, sym, idx).Done?
  {
    var w := Arrived(Blamed(rs, Reading(v)), CATCH_NODE);
    UnmatchedIsCaught(rs, v);
    BlamedIs(rs, v);
    CatchMoves(rs, Blamed(rs, Reading(v)), code);
    ArrivedKeepsError(Blamed(rs, Reading(v)));
    ComplaintBreaks(rs, b);
    hide Complains, BreaksPages, PageOut, Arrived, Settle, StepOf, Idle, Blamed;
    forall sp, sym, idx: u16 ensures !PageOut(w.pg, sp, rs, sym, idx).Done? {
      BrokenPage(w.pg, sp, rs, sym, idx);
    }
  }

  lemma BlamedIs(rs: Resource, v: VmV)
    requires Idle(v) && v.st.input.Some?
    ensures var r := Blamed(rs, Reading(v));
      Idle(r) && r.st.path == v.st.path && Where(r.st) == Where(v.st) && r.pg.err == Some(rs.message(InvalidInput(v.st.input.value)))
  {
  }

  lemma ArrivedKeepsError(v: VmV)
    requires Sound(v)
    ensures Arrived(v, CATCH_NODE).pg.err == v.pg.err
  {
  }

  // ----- how long a message stays -----

  /** The message is the old one, or one that was raised since. */
  ghost predicate Carried(rs: Resource, was: Option<Bytes>, now: Option<Bytes>) {
    now == was || exists e: VmError :: now == Some(rs.message(e))
  }

  lemma OpKeepsError(rs: Resource, op: Opcode, v: VmV, b: Bytes)
    requires Sound(v)
    ensures DoOp(rs, op, v, b).v.pg.err == v.pg.err
  {
    hide RefreshState, RefreshOut, Target, TargetOut, ParseSym, ParseSymSig, ParseTwoSym, ParseSig, ParseSymLen, CAdd,
      CUpdate, CReset, CGet, AddOutcome, MapOut;
  }

  lemma StepKeepsError(rs: Resource, v: VmV, b: Bytes)
    requires Sound(v)
    ensures Carried(rs, v.pg.err, StepOf(rs, v, b).v.pg.err)
  {
    hide DoOp, OpSplit;
    assert Prelude(v).pg.err == v.pg.err;
    if OpSplit(b).Ok? && OpSplit(b).value != HALT {
      OpKeepsError(rs, OpSplit(b).value, Prelude(v), OpSplit(b).rest);
    }
  }

  /** No run takes a message off the page: only another error replaces it. */
  lemma {:induction false} RunKeepsError(rs: Resource, v: VmV, b: Bytes, fuel: nat)
    requires Sound(v)
    ensures Carried(rs, v.pg.err, Run(rs, v, b, fuel).v.pg.err)
    decreases fuel
  {
    hide StepOf;
    if fuel > 0 {
      StepKeepsError(rs, v, b);
      RunOnce(rs, v, b, fuel);
      var s := StepOf(rs, v, b);
      if s.Onward? {
        RunKeepsError(rs, s.v, s.code, fuel - 1);
      }
    }
  }
}
