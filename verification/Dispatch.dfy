/** How a list of INCMP instructions routes the input: the first match is applied, once. */
module Dispatch {
  import opened Common
  import opened Codec
  import opened CodecProofs
  import opened States
  import opened Caching
  import opened Resources
  import opened Navigation
  import opened Running

  const WILDCARD: Bytes := [42]

  /** An INCMP instruction: where to go, and on what input. */
  datatype Entry = Entry(target: Bytes, sel: Bytes)

  function EntryLine(e: Entry): Line {
    Line(INCMP, [e.target, e.sel], None, [])
  }

  predicate GoodEntry(e: Entry) {
    GoodSym(e.target) && GoodSym(e.sel)
  }

  function EntriesBytes(es: seq<Entry>): Bytes {
    if es == [] then [] else LineBytes(EntryLine(es[0])) + EntriesBytes(es[1..])
  }

  predicate Hits(e: Entry, input: Bytes) {
    e.sel == WILDCARD || e.sel == input
  }

  // ----- between instructions -----

  /** The flags as every instruction after the first finds them: nothing left for the prelude to do. */
  predicate Idle(v: VmV) {
    && Sound(v) && !v.st.flags[FLAG_TERMINATE]
    && !v.st.flags[FLAG_LANG] && !v.st.flags[FLAG_WAIT] && v.st.flags[FLAG_DIRTY]
  }

  lemma PreludeIdle(v: VmV)
    requires Idle(v)
    ensures Prelude(v) == v
  {
    assert v.st.flags[FLAG_LANG := false] == v.st.flags;
    assert v.st.flags[FLAG_DIRTY := true] == v.st.flags;
  }

  /** The first instruction of a run sees the same machine as one that finds the prelude already done. */
  lemma {:induction false} PreludeFirst(rs: Resource, v: VmV, b: Bytes)
    requires Sound(v) && !v.st.flags[FLAG_TERMINATE]
    ensures Idle(Prelude(v)) && StepOf(rs, v, b) == StepOf(rs, Prelude(v), b)
  {
    PreludeIdle(Prelude(v));
    hide DoOp, OpSplit;
  }

  /** Runs compose: `m` steps and then `n` more are `m + n` steps. */
  lemma {:induction false} RunJoins(rs: Resource, v: VmV, b: Bytes, m: nat, n: nat)
    requires Sound(v) && Run(rs, v, b, m).Onward?
    ensures Run(rs, v, b, m + n) == Run(rs, Run(rs, v, b, m).v, Run(rs, v, b, m).code, n)
    decreases m
  {
    hide StepOf;
    if m > 0 {
      var s := StepOf(rs, v, b);
      RunOnce(rs, v, b, m);
      RunOnce(rs, v, b, m + n);
      hide *;
      RunJoins(rs, s.v, s.code, m - 1, n);
    }
  }

  lemma ReadTwoSym(op: Opcode, a: Bytes, b: Bytes, rest: Bytes)
    requires op == INCMP || op == MOUT || op == MNEXT || op == MPREV
    requires GoodSym(a) && GoodSym(b)
    ensures var code := LineBytes(Line(op, [a, b], None, [])) + rest;
      OpSplit(code).Ok? && OpSplit(code).value == op && ParseTwoSym(OpSplit(code).rest) == Ok((a, b), rest)
  {
    var l := Line(op, [a, b], None, []);
    ReadOpcode(l, rest);
    ReadArguments(l, rest);
    hide ParseTwoSym, OpSplit, LineBytes, Arguments;
  }

  /** One INCMP, read and executed. */
  lemma EntryStep(rs: Resource, v: VmV, e: Entry, rest: Bytes)
    requires Idle(v) && GoodEntry(e)
    ensures StepOf(rs, v, LineBytes(EntryLine(e)) + rest) == Settle(rs, ErrCheck(rs, InCmpRan(rs, v, e, rest)))
  {
    var b := LineBytes(EntryLine(e)) + rest;
    PreludeIdle(v);
    ReadTwoSym(INCMP, e.target, e.sel, rest);
    hide ParseTwoSym, LineBytes, OpSplit;
    InCmpRead(rs, v, OpSplit(b).rest, e, rest);
    assert DoOp(rs, INCMP, v, OpSplit(b).rest) == InCmpRan(rs, v, e, rest);
    hide Prelude, ErrCheck, Settle, DoOp, InCmpRan;
  }

  lemma InCmpRead(rs: Resource, v: VmV, b: Bytes, e: Entry, rest: Bytes)
    requires Sound(v) && ParseTwoSym(b) == Ok((e.target, e.sel), rest)
    ensures DoInCmp(rs, v, b) == InCmpRan(rs, v, e, rest)
  {
    hide ParseTwoSym, DoMatch, Matches;
  }

  /** What INCMP does once its arguments are read. */
  ghost function InCmpRan(rs: Resource, v: VmV, e: Entry, rest: Bytes): (r: Ran)
    requires Sound(v)
    ensures Sound(r.v)
  {
    var reading, have := v.st.flags[FLAG_READIN], v.st.flags[FLAG_INMATCH];
    if have && reading then Ran(v, Go(rest))
    else
      var v1 := if have then v else WithFlag(v, FLAG_READIN, true);
      if v1.st.input.None? then Ran(v1, Raise(rest, NoInput))
      else if !Matches(v1, e.sel) then Ran(v1, Go(rest))
      else DoMatch(rs, v1, e.target, rest)
  }

  // ----- three phases of a dispatch -----

  /** Reading input, nothing matched so far. */
  predicate Seeking(v: VmV) {
    Idle(v) && !v.st.flags[FLAG_INMATCH] && v.st.input.Some?
  }

  /** A match has been applied. */
  predicate Matched(v: VmV) {
    Idle(v) && v.st.flags[FLAG_INMATCH] && !v.st.flags[FLAG_READIN] && v.st.input.Some?
  }

  /** A match could not be applied because there is no previous page; what follows is ignored. */
  predicate Stuck(v: VmV) {
    Idle(v) && v.st.flags[FLAG_INMATCH] && v.st.flags[FLAG_READIN]
  }

  lemma PhasesAreSound(v: VmV)
    ensures Seeking(v) ==> Sound(v) && v.st.input.Some?
    ensures Matched(v) ==> Sound(v) && v.st.input.Some?
    ensures Stuck(v) ==> Sound(v)
  {
  }

  function Reading(v: VmV): (r: VmV)
    requires Sound(v)
    ensures Sound(r) && r.st.input == v.st.input && r.st.path == v.st.path
  {
    WithFlag(v, FLAG_READIN, true)
  }

  function Flagged(v: VmV): (r: VmV)
    requires Sound(v)
    ensures Sound(r) && r.st.input == v.st.input && r.st.path == v.st.path
  {
    WithFlag(WithFlag(v, FLAG_INMATCH, true), FLAG_READIN, false)
  }

  /** One entry that does not match. */
  lemma {:induction false} SkipUnmatched(rs: Resource, v: VmV, e: Entry, rest: Bytes)
    requires Seeking(v) && GoodEntry(e) && !Hits(e, v.st.input.value)
    ensures StepOf(rs, v, LineBytes(EntryLine(e)) + rest) == Settle(rs, Onward(Reading(v), rest))
    ensures Seeking(Reading(v)) && Reading(Reading(v)) == Reading(v) && Reading(v).st.input == v.st.input
  {
    EntryStep(rs, v, e, rest);
    assert InCmpRan(rs, v, e, rest) == Ran(Reading(v), Go(rest)) by { hide DoMatch; }
    assert Reading(v).st.flags[FLAG_READIN := true] == Reading(v).st.flags;
    hide StepOf, LineBytes, Settle, InCmpRan;
  }

  /** One entry after a match. */
  lemma SkipMatched(rs: Resource, v: VmV, e: Entry, rest: Bytes)
    requires (Matched(v) || Stuck(v)) && GoodEntry(e)
    requires Matched(v) ==> e.sel != v.st.input.value
    ensures StepOf(rs, v, LineBytes(EntryLine(e)) + rest) == Settle(rs, Onward(v, rest))
  {
    EntryStep(rs, v, e, rest);
    assert InCmpRan(rs, v, e, rest) == Ran(v, Go(rest)) by { hide DoMatch; }
    hide StepOf, LineBytes, Settle, InCmpRan;
  }

  lemma FirstEntry(es: seq<Entry>, rest: Bytes)
    requires es != []
    ensures EntriesBytes(es) + rest == LineBytes(EntryLine(es[0])) + (EntriesBytes(es[1..]) + rest)
    ensures EntriesBytes(es) + rest != []
  {
    hide LineBytes;
    Associates(LineBytes(EntryLine(es[0])), EntriesBytes(es[1..]), rest);
    LineNotEmpty(es[0]);
  }

  lemma NoEntry(rest: Bytes)
    ensures EntriesBytes([]) + rest == rest
  {
  }

  lemma LineNotEmpty(e: Entry)
    ensures LineBytes(EntryLine(e)) != []
  {
    hide Arguments;
  }

  /** Entries, and the code behind them. */
  function EntriesThen(es: seq<Entry>, rest: Bytes): Bytes {
    EntriesBytes(es) + rest
  }

  lemma EntriesThenIs(es: seq<Entry>, rest: Bytes)
    ensures EntriesThen(es, rest) == EntriesBytes(es) + rest
  {
  }

  lemma BehindFirst(es: seq<Entry>, rest: Bytes)
    requires es != []
    ensures es[1..] != [] ==> EntriesThen(es[1..], rest) != []
    ensures |es| == 1 ==> EntriesThen(es[1..], rest) == rest
  {
    NoEntry(rest);
    hide EntriesBytes;
    if es[1..] != [] {
      FirstEntry(es[1..], rest);
    }
  }

  lemma SkipFirstUnmatched(rs: Resource, v: VmV, es: seq<Entry>, rest: Bytes)
    requires Seeking(v) && es != [] && GoodEntry(es[0]) && !Hits(es[0], v.st.input.value)
    ensures StepOf(rs, v, EntriesThen(es, rest)) == Settle(rs, Onward(Reading(v), EntriesThen(es[1..], rest)))
    ensures Seeking(Reading(v)) && Reading(Reading(v)) == Reading(v) && Reading(v).st.input == v.st.input
  {
    FirstEntry(es, rest);
    SkipUnmatched(rs, v, es[0], EntriesThen(es[1..], rest));
    hide StepOf, Settle, Reading, Seeking, LineBytes, EntriesBytes;
  }

  lemma SkipFirstMatched(rs: Resource, v: VmV, es: seq<Entry>, rest: Bytes)
    requires (Matched(v) || Stuck(v)) && es != [] && GoodEntry(es[0])
    requires Matched(v) ==> es[0].sel != v.st.input.value
    ensures StepOf(rs, v, EntriesThen(es, rest)) == Settle(rs, Onward(v, EntriesThen(es[1..], rest)))
  {
    FirstEntry(es, rest);
    SkipMatched(rs, v, es[0], EntriesThen(es[1..], rest));
    hide StepOf, Settle, LineBytes, EntriesBytes;
  }

  /** Entries before the match are read and passed over. */
  lemma {:induction false} PassUnmatched(rs: Resource, v: VmV, es: seq<Entry>, rest: Bytes)
    requires Seeking(v) && es != [] && NoneHits(es, v.st.input.value)
    ensures Run(rs, v, EntriesThen(es, rest), |es|) == Settle(rs, Onward(Reading(v), rest))
    decreases |es|
  {
    hide *;
    PhasesAreSound(v);
    var b, later := EntriesThen(es, rest), es[1..];
    OthersMiss(es, v.st.input.value);
    SkipFirstUnmatched(rs, v, es, rest);
    BehindFirst(es, rest);
    if later == [] {
      OneStep(rs, v, b);
    } else {
      PassUnmatched(rs, Reading(v), later, rest);
      StepThenRun(rs, v, b, Reading(v), EntriesThen(later, rest), |later|);
    }
  }

  /** Entries after an applied match are read and passed over, unless they have the input as their selector. */
  lemma {:induction false} PassMatched(rs: Resource, v: VmV, es: seq<Entry>, rest: Bytes)
    requires (Matched(v) || Stuck(v)) && AllGood(es) && es != []
    requires Matched(v) ==> NoneSelects(es, v.st.input.value)
    ensures Run(rs, v, EntriesThen(es, rest), |es|) == Settle(rs, Onward(v, rest))
    decreases |es|
  {
    hide *;
    PhasesAreSound(v);
    var b, later := EntriesThen(es, rest), es[1..];
    OthersSelect(es, if Matched(v) then v.st.input.value else []);
    SkipFirstMatched(rs, v, es, rest);
    BehindFirst(es, rest);
    if later == [] {
      OneStep(rs, v, b);
    } else {
      PassMatched(rs, v, later, rest);
      StepThenRun(rs, v, b, v, EntriesThen(later, rest), |later|);
    }
  }

  /** A step, and then `n` more. */
  lemma {:induction false} StepThenRun(rs: Resource, v: VmV, b: Bytes, v': VmV, code: Bytes, n: nat)
    requires Sound(v) && Sound(v') && code != [] && StepOf(rs, v, b) == Settle(rs, Onward(v', code))
    ensures Run(rs, v, b, n + 1) == Run(rs, v', code, n)
  {
    hide *;
    GoesOn(rs, v', code);
    RunOnce(rs, v, b, n + 1);
  }

  /** Readable entries, none of which the input hits. */
  predicate NoneHits(es: seq<Entry>, input: Bytes) {
    AllGood(es) && forall e :: e in es ==> !Hits(e, input)
  }

  lemma OthersMiss(es: seq<Entry>, input: Bytes)
    requires es != [] && NoneHits(es, input)
    ensures GoodEntry(es[0]) && !Hits(es[0], input) && NoneHits(es[1..], input)
  {
    hide GoodEntry, Hits;
  }

  // ----- the match itself -----

  /** The index of the first entry that the input hits; the length of the list when there is none. */
  function FirstHit(es: seq<Entry>, input: Bytes): (k: nat)
    ensures k <= |es| && forall i :: 0 <= i < k ==> !Hits(es[i], input)
    ensures k < |es| ==> Hits(es[k], input)
  {
    if es == [] || Hits(es[0], input) then 0
    else
      assert forall i :: 0 < i < |es| ==> es[i] == es[1..][i - 1];
      1 + FirstHit(es[1..], input)
  }

  /** A match moves when there is such a move, to a node with code. */
  predicate Moves(rs: Resource, w: VmV, target: Bytes) {
    var out := TargetOut(w.st, target);
    out.To? && rs.code(out.sym).Some?
  }

  /** How a match that leads nowhere ends: no such move, or no code at the node moved to. */
  ghost function Failure(rs: Resource, w: VmV, target: Bytes, code: Bytes): (r: Ran)
    requires Sound(w)
    ensures Sound(r.v)
  {
    var out := TargetOut(w.st, target);
    if out.To? then Ran(VReset(Target(w, target)), Raise(code, NoCode)) else Ran(w, MoveExit(out, code))
  }

  /** The machine after a match has been applied. */
  ghost function Arrived(w: VmV, target: Bytes): (r: VmV)
    requires Sound(w)
    ensures Sound(r) && r.st.flags == w.st.flags && r.st.input == w.st.input
  {
    VReset(Target(w, target))
  }

  lemma FlaggedIs(v: VmV)
    requires Seeking(v)
    ensures Flagged(Reading(v)) == Flagged(v)
    ensures Idle(Flagged(v)) && Stuck(Reading(Flagged(v)))
    ensures forall target :: Matched(Arrived(Flagged(v), target))
  {
    assert Flagged(Reading(v)).st.flags == Flagged(v).st.flags;
    hide Target;
  }

  /** The step that matches. */
  lemma {:induction false} MatchStep(rs: Resource, v: VmV, e: Entry, rest: Bytes)
    requires Seeking(v) && GoodEntry(e) && Hits(e, v.st.input.value)
    ensures
      var w, s := Flagged(v), StepOf(rs, v, LineBytes(EntryLine(e)) + rest);
      var out := TargetOut(w.st, e.target);
      if out.To? && rs.code(out.sym).Some? then
        s == Settle(rs, Onward(Arrived(w, e.target), rest + rs.code(out.sym).value))
      else if out.AtFirstPage? then s == Settle(rs, Onward(Reading(w), rest))
      else s == ErrCheck(rs, Failure(rs, w, e.target, rest))
  {
    EntryStep(rs, v, e, rest);
    FlaggedIs(v);
    var w := Flagged(v);
    var out := TargetOut(w.st, e.target);
    var ran := InCmpRan(rs, v, e, rest);
    assert ran == DoMatch(rs, Reading(v), e.target, rest) by { hide DoMatch, TargetOut; }
    assert ran == if out.To? && rs.code(out.sym).Some? then Ran(Arrived(w, e.target), Go(rest + rs.code(out.sym).value))
                  else if out.AtFirstPage? then Ran(Reading(w), Go(rest))
                  else Failure(rs, w, e.target, rest) by {
      hide TargetOut, Target, VReset;
    }
    hide TargetOut, InCmpRan, StepOf, LineBytes, Arrived, Reading, Flagged, DoMatch, DeadCheck, Hits, Seeking;
  }

  /**
   The outcome of a dispatch whose first match is entry `k`: its target is applied, once, and the code
   found there follows what was left; or there is no previous page, and the input stays unmatched; or
   the move fails, with the remaining entries unread.
   */
  ghost predicate Dispatched(rs: Resource, v: VmV, es: seq<Entry>, rest: Bytes, k: nat)
    requires Sound(v) && k < |es|
  {
    Leads(rs, v, EntriesBytes(es) + rest, Flagged(v), es[k].target, EntriesBytes(es[k + 1..]), rest, |es|, k)
  }

  /** The same for any code `b` that holds `n` entries, `later` those behind the match. */
  ghost predicate Leads(rs: Resource, v: VmV, b: Bytes, w: VmV, target: Bytes, later: Bytes, rest: Bytes, n: nat, k: nat)
    requires Sound(v) && Sound(w)
  {
    var out := TargetOut(w.st, target);
    if out.To? && rs.code(out.sym).Some? then
      Run(rs, v, b, n) == Settle(rs, Onward(Arrived(w, target), rest + rs.code(out.sym).value))
    else if out.AtFirstPage? then Run(rs, v, b, n) == Settle(rs, Onward(Reading(w), rest))
    else Run(rs, v, b, k + 1) == ErrCheck(rs, Failure(rs, w, target, later + rest))
  }

  lemma LeadsAfter(rs: Resource, v: VmV, b: Bytes, v': VmV, b': Bytes, w: VmV, target: Bytes, later: Bytes, rest: Bytes,
                   n: nat, k: nat)
    requires Sound(v) && Sound(v') && Sound(w) && StepOf(rs, v, b) == Onward(v', b')
    requires Leads(rs, v', b', w, target, later, rest, n, k)
    ensures Leads(rs, v, b, w, target, later, rest, n + 1, k + 1)
  {
    hide StepOf;
    RunOnce(rs, v, b, n + 1);
    RunOnce(rs, v, b, k + 2);
    hide Run, TargetOut, Settle, Arrived, Reading, ErrCheck, Failure;
  }

  lemma GoesOn(rs: Resource, v: VmV, code: Bytes)
    requires Sound(v) && code != []
    ensures Settle(rs, Onward(v, code)) == Onward(v, code)
  {
  }

  /** A step that leaves a match behind runs on over the entries that are left. */
  lemma {:induction false} RunOver(rs: Resource, v: VmV, b: Bytes, v': VmV, later: seq<Entry>, rest: Bytes)
    requires Sound(v) && Sound(v') && StepOf(rs, v, b) == Settle(rs, Onward(v', EntriesBytes(later) + rest))
    requires (Matched(v') || Stuck(v')) && AllGood(later)
    requires Matched(v') ==> NoneSelects(later, v'.st.input.value)
    ensures Run(rs, v, b, 1 + |later|) == Settle(rs, Onward(v', rest))
  {
    hide *;
    if later == [] {
      NoEntry(rest);
      OneStep(rs, v, b);
    } else {
      FirstEntry(later, rest);
      StepThenRun(rs, v, b, v', EntriesBytes(later) + rest, |later|);
      EntriesThenIs(later, rest);
      PassMatched(rs, v', later, rest);
    }
  }

  /** Readable entries, none of which has the input as its selector. */
  predicate NoneSelects(es: seq<Entry>, input: Bytes) {
    AllGood(es) && forall e :: e in es ==> e.sel != input
  }

  predicate AllGood(es: seq<Entry>) {
    forall e :: e in es ==> GoodEntry(e)
  }

  lemma OthersSelect(es: seq<Entry>, input: Bytes)
    requires es != []
    ensures AllGood(es) ==> GoodEntry(es[0]) && AllGood(es[1..])
    ensures NoneSelects(es, input) ==> es[0].sel != input && NoneSelects(es[1..], input)
  {
    hide GoodEntry;
  }

  lemma NoneSelectsIs(es: seq<Entry>, input: Bytes)
    ensures NoneSelects(es, input) ==> AllGood(es)
  {
    hide AllGood;
  }

  /** If entry `k` moves, no entry behind it has the input as its selector. */
  predicate Unrepeated(rs: Resource, w: VmV, es: seq<Entry>, k: nat, input: Bytes)
    requires k < |es|
  {
    Moves(rs, w, es[k].target) ==> NoneSelects(es[k + 1..], input)
  }

  lemma UnrepeatedLater(rs: Resource, w: VmV, es: seq<Entry>, k: nat, input: Bytes)
    requires k + 1 < |es| && Unrepeated(rs, w, es, k + 1, input)
    ensures Unrepeated(rs, w, es[1..], k, input)
  {
    hide Moves, NoneSelects;
    assert es[1..][k + 1..] == es[k + 2..];
  }

  /** The match comes first. */
  lemma {:induction false} MatchFirst(rs: Resource, v: VmV, es: seq<Entry>, rest: Bytes)
    requires Seeking(v) && es != [] && AllGood(es) && Hits(es[0], v.st.input.value)
    requires Unrepeated(rs, Flagged(v), es, 0, v.st.input.value)
    ensures Dispatched(rs, v, es, rest, 0)
  {
    var b, w, e, later := EntriesBytes(es) + rest, Flagged(v), es[0], es[1..];
    var tail := EntriesBytes(later) + rest;
    var out := TargetOut(w.st, e.target);
    FirstEntry(es, rest);
    OthersSelect(es, v.st.input.value);
    NoneSelectsIs(later, v.st.input.value);
    MatchStep(rs, v, e, tail);
    FlaggedIs(v);
    hide StepOf, LineBytes, TargetOut, DeadCheck, Arrived, Reading, Flagged, Failure, Stuck, Matched, Target, Seeking,
      VReset,
      EntriesBytes, Run, AllGood, NoneSelects, ErrCheck;
    if out.To? && rs.code(out.sym).Some? {
      var code := rs.code(out.sym).value;
      assert Run(rs, v, b, |es|) == Settle(rs, Onward(Arrived(w, e.target), rest + code)) by {
        Associates(EntriesBytes(later), rest, code);
        hide *;
        RunOver(rs, v, b, Arrived(w, e.target), later, rest + code);
      }
    } else if out.AtFirstPage? {
      assert Run(rs, v, b, |es|) == Settle(rs, Onward(Reading(w), rest)) by {
        MissedIsStuck(Reading(w));
        hide *;
        RunOver(rs, v, b, Reading(w), later, rest);
      }
    } else {
      OneStep(rs, v, b);
    }
  }

  lemma MissedIsStuck(v: VmV)
    ensures Stuck(v) ==> !Matched(v)
  {
  }

  /** The first entry that the input hits is entry `k`. */
  predicate HitsAt(es: seq<Entry>, input: Bytes, k: nat) {
    k < |es| && Hits(es[k], input) && forall i :: 0 <= i < k ==> !Hits(es[i], input)
  }

  lemma HitsLater(es: seq<Entry>, input: Bytes, k: nat)
    requires HitsAt(es, input, k)
    ensures k == 0 ==> Hits(es[0], input)
    ensures k > 0 ==> !Hits(es[0], input) && HitsAt(es[1..], input, k - 1)
  {
    hide Hits;
  }

  /**
   First-match dispatch: whatever comes before the first match is passed over, and so is all that follows it,
   unless the match has moved and an entry behind it has the input as its selector.
   */
  lemma {:induction false} FirstMatch(rs: Resource, v: VmV, es: seq<Entry>, rest: Bytes, k: nat)
    requires Seeking(v) && AllGood(es) && k < |es| && HitsAt(es, v.st.input.value, k)
    requires Unrepeated(rs, Flagged(v), es, k, v.st.input.value)
    ensures Dispatched(rs, v, es, rest, k)
    decreases k
  {
    hide *;
    PhasesAreSound(v);
    var input, later := v.st.input.value, es[1..];
    HitsLater(es, input, k);
    OthersSelect(es, input);
    if k == 0 {
      MatchFirst(rs, v, es, rest);
    } else {
      SkipUnmatched(rs, v, es[0], EntriesBytes(later) + rest);
      FlaggedIs(v);
      UnrepeatedLater(rs, Flagged(v), es, k - 1, input);
      FirstMatch(rs, Reading(v), later, rest, k - 1);
      SkipToDispatch(rs, v, es, rest, k - 1);
    }
  }

  lemma SkipToDispatch(rs: Resource, v: VmV, es: seq<Entry>, rest: Bytes, k: nat)
    requires Seeking(v) && k + 1 < |es| && GoodEntry(es[0]) && !Hits(es[0], v.st.input.value)
    requires Dispatched(rs, Reading(v), es[1..], rest, k)
    ensures Dispatched(rs, v, es, rest, k + 1)
  {
    hide *;
    PhasesAreSound(v);
    var b, later := EntriesBytes(es) + rest, es[1..];
    var w, target, behind := Flagged(v), later[k].target, EntriesBytes(later[k + 1..]);
    assert es[k + 1] == later[k] && es[k + 2..] == later[k + 1..];
    FirstEntry(es, rest);
    FirstEntry(later, rest);
    SkipUnmatched(rs, v, es[0], EntriesBytes(later) + rest);
    GoesOn(rs, Reading(v), EntriesBytes(later) + rest);
    FlaggedIs(v);
    DispatchedIs(rs, Reading(v), later, rest, k);
    LeadsAfter(rs, v, b, Reading(v), EntriesBytes(later) + rest, w, target, behind, rest, |later|, k);
    DispatchedIs(rs, v, es, rest, k + 1);
  }

  lemma DispatchedIs(rs: Resource, v: VmV, es: seq<Entry>, rest: Bytes, k: nat)
    requires Sound(v) && k < |es|
    ensures Dispatched(rs, v, es, rest, k) <==>
      Leads(rs, v, EntriesBytes(es) + rest, Flagged(v), es[k].target, EntriesBytes(es[k + 1..]), rest, |es|, k)
  {
    hide Leads, EntriesBytes, Flagged;
  }

  // ----- a second match -----

  /** After a match that has moved, an entry with the input as its selector moves again. */
  lemma {:induction false} RepeatedSelectorStep(rs: Resource, v: VmV, e: Entry, rest: Bytes)
    requires Matched(v) && GoodEntry(e) && e.sel == v.st.input.value
    ensures StepOf(rs, v, LineBytes(EntryLine(e)) + rest) == Settle(rs, ErrCheck(rs, DoMatch(rs, v, e.target, rest)))
  {
    EntryStep(rs, v, e, rest);
    hide StepOf, LineBytes, DoMatch, DeadCheck, ErrCheck;
  }

  lemma {:induction false} EntriesAppend(a: seq<Entry>, b: seq<Entry>)
    ensures EntriesBytes(a + b) == EntriesBytes(a) + EntriesBytes(b)
  {
    hide LineBytes;
    if a == [] {
      assert a + b == b;
    } else {
      assert (a + b)[1..] == a[1..] + b;
      EntriesAppend(a[1..], b);
      Associates(LineBytes(EntryLine(a[0])), EntriesBytes(a[1..]), EntriesBytes(b));
    }
  }

  /** The entries before entry `j`, and the code from it on. */
  lemma EntriesSplit(es: seq<Entry>, j: nat, rest: Bytes)
    requires j < |es|
    ensures EntriesBytes(es) + rest
         == EntriesBytes(es[..j]) + (LineBytes(EntryLine(es[j])) + (EntriesBytes(es[j + 1..]) + rest))
  {
    hide LineBytes, EntriesBytes;
    assert es == es[..j] + es[j..];
    EntriesAppend(es[..j], es[j..]);
    assert es[j..][1..] == es[j + 1..];
    FirstEntry(es[j..], rest);
    Associates(EntriesBytes(es[..j]), EntriesBytes(es[j..]), rest);
  }

  lemma GoodUpTo(es: seq<Entry>, input: Bytes, k: nat, j: nat)
    requires AllGood(es) && HitsAt(es, input, k) && k < j < |es|
    requires forall i :: k < i < j ==> es[i].sel != input
    ensures AllGood(es[..j]) && HitsAt(es[..j], input, k) && NoneSelects(es[..j][k + 1..], input)
    ensures GoodEntry(es[j]) && es[..j][k] == es[k]
  {
    hide GoodEntry, Hits;
    forall e | e in es[..j][k + 1..] ensures e.sel != input && e in es {
      var i :| 0 <= i < j - k - 1 && es[..j][k + 1..][i] == e;
      assert es[k + 1 + i] == e;
    }
  }

  /**
   The converse: when the first match, entry `k`, has moved and entry `j` is the next with the input as its selector,
   entry `j` is applied as well, to the machine where the first has arrived.
   */
  lemma {:induction false} RepeatedSelectorMovesAgain(rs: Resource, v: VmV, es: seq<Entry>, rest: Bytes, k: nat, j: nat)
    requires Seeking(v) && AllGood(es) && HitsAt(es, v.st.input.value, k) && k < j < |es|
    requires es[j].sel == v.st.input.value && forall i :: k < i < j ==> es[i].sel != v.st.input.value
    requires Moves(rs, Flagged(v), es[k].target)
    ensures var w := Arrived(Flagged(v), es[k].target);
      var code := rs.code(TargetOut(Flagged(v).st, es[k].target).sym).value;
      Run(rs, v, EntriesBytes(es) + rest, j + 1)
        == Settle(rs, ErrCheck(rs, DoMatch(rs, w, es[j].target, EntriesBytes(es[j + 1..]) + rest + code)))
  {
    hide *;
    PhasesAreSound(v);
    var input, w := v.st.input.value, Flagged(v);
    var front, line, behind := es[..j], LineBytes(EntryLine(es[j])), EntriesBytes(es[j + 1..]) + rest;
    var b := EntriesBytes(es) + rest;
    EntriesSplit(es, j, rest);
    GoodUpTo(es, input, k, j);
    UnrepeatedIs(rs, w, front, k, input);
    FirstMatch(rs, v, front, line + behind, k);
    DispatchedIs(rs, v, front, line + behind, k);
    MovesIs(rs, w, es[k].target);
    var code := rs.code(TargetOut(w.st, es[k].target).sym).value;
    LeadsMoved(rs, v, b, w, es[k].target, EntriesBytes(front[k + 1..]), line + behind, j, k);
    var w' := Arrived(w, es[k].target);
    FlaggedIs(v);
    LineNotEmpty(es[j]);
    Associates(line, behind, code);
    GoesOn(rs, w', line + behind + code);
    assert w'.st.input == v.st.input;
    RepeatedSelectorStep(rs, w', es[j], behind + code);
    OneStep(rs, w', line + (behind + code));
    RunJoins(rs, v, b, j, 1);
  }

  lemma UnrepeatedIs(rs: Resource, w: VmV, es: seq<Entry>, k: nat, input: Bytes)
    requires k < |es| && NoneSelects(es[k + 1..], input)
    ensures Unrepeated(rs, w, es, k, input)
  {
  }

  lemma MovesIs(rs: Resource, w: VmV, target: Bytes)
    ensures Moves(rs, w, target) ==> TargetOut(w.st, target).To? && rs.code(TargetOut(w.st, target).sym).Some?
  {
    hide TargetOut;
  }

  lemma LeadsMoved(rs: Resource, v: VmV, b: Bytes, w: VmV, target: Bytes, later: Bytes, rest: Bytes, n: nat, k: nat)
    requires Sound(v) && Sound(w) && Leads(rs, v, b, w, target, later, rest, n, k) && Moves(rs, w, target)
    ensures Run(rs, v, b, n) == Settle(rs, Onward(Arrived(w, target), rest + rs.code(TargetOut(w.st, target).sym).value))
  {
    hide Run, TargetOut, Settle, Arrived, Reading, ErrCheck, Failure;
  }

  const ONE: Bytes := [49]
  const NODE_A: Bytes := [97, 97]
  const NODE_B: Bytes := [98, 98]

  /** `INCMP aa 1`, `INCMP bb 1` */
  const TWICE: seq<Entry> := [Entry(NODE_A, ONE), Entry(NODE_B, ONE)]

  /** Two such entries, run on the input `1`, end one below the other. */
  lemma {:induction false} TwoEntriesMoveTwice(rs: Resource, v: VmV)
    requires Waiting(v) && v.st.input.value == ONE && Where(v.st) != NODE_A && |v.st.path| < MAX_LEVEL
    requires rs.code(NODE_A).Some? && rs.code(NODE_B).Some?
    ensures Run(rs, v, EntriesBytes(TWICE), 2).v.st.path == v.st.path + [NODE_A, NODE_B]
  {
    hide *;
    WaitingIsSound(v);
    var p := Prelude(v);
    var b := EntriesBytes(TWICE) + [];
    NoCodeBehind(EntriesBytes(TWICE));
    WaitingSeeks(rs, v, b, 2);
    PhasesAreSound(p);
    TwiceIs();
    PreludePath(v);
    NodeMoves(rs, p, NODE_A);
    RepeatedSelectorMovesAgain(rs, p, TWICE, [], 0, 1);
    var w := Arrived(Flagged(p), NODE_A);
    MovesIs(rs, Flagged(p), NODE_A);
    WhereLast(w.st, v.st.path, NODE_A);
    SecondMove(rs, w, NODE_B, EntriesBytes(TWICE[2..]) + [] + rs.code(TargetOut(Flagged(p).st, NODE_A).sym).value);
    assert v.st.path + [NODE_A] + [NODE_B] == v.st.path + [NODE_A, NODE_B];
  }

  lemma WhereLast(st: StateV, path: seq<Bytes>, node: Bytes)
    requires st.path == path + [node]
    ensures Where(st) == node
  {
  }

  lemma NoCodeBehind(b: Bytes)
    ensures b + [] == b
  {
  }

  lemma TwiceIs()
    ensures AllGood(TWICE) && HitsAt(TWICE, ONE, 0) && |TWICE| == 2 && TWICE[1].sel == ONE
    ensures TWICE[0].target == NODE_A && TWICE[1].target == NODE_B && NODE_A != NODE_B
  {
  }

  lemma PreludePath(v: VmV)
    requires Sound(v)
    ensures Prelude(v).st.path == v.st.path && Prelude(v).st.input == v.st.input && Where(Prelude(v).st) == Where(v.st)
  {
  }

  lemma NodeMoves(rs: Resource, v: VmV, target: Bytes)
    requires Sound(v) && rs.code(target).Some? && target in {NODE_A, NODE_B}
    requires Where(v.st) != target && |v.st.path| <= MAX_LEVEL
    ensures Moves(rs, Flagged(v), target)
    ensures Arrived(Flagged(v), target).st.path == v.st.path + [target]
  {
    assert ValidTarget(target) && target !in [UP, NEXT, PREVIOUS, TOP, SAME];
    assert TargetOut(Flagged(v).st, target) == To(target);
    hide ValidTarget;
  }

  lemma SecondMove(rs: Resource, w: VmV, target: Bytes, rest: Bytes)
    requires Sound(w) && rs.code(target).Some? && target in {NODE_A, NODE_B}
    requires Where(w.st) != target && |w.st.path| <= MAX_LEVEL
    ensures Settle(rs, ErrCheck(rs, DoMatch(rs, w, target, rest))).v.st.path == w.st.path + [target]
  {
    hide Target, TargetOut, Arrived, VReset, Moves;
    NodeMoves(rs, w, target);
    MovesIs(rs, Flagged(w), target);
    ArrivedIs(Flagged(w), target);
    VResetPath(Target(Flagged(w), target));
  }

  lemma ArrivedIs(w: VmV, target: Bytes)
    requires Sound(w)
    ensures Arrived(w, target) == VReset(Target(w, target))
  {
  }

  lemma VResetPath(v: VmV)
    ensures VReset(v).st == v.st
  {
  }

  // ----- resuming after a HALT -----

  /** A machine that waits for input, and has it. */
  predicate Waiting(v: VmV) {
    && Sound(v) && !v.st.flags[FLAG_TERMINATE]
    && v.st.flags[FLAG_WAIT] && v.st.input.Some?
  }

  lemma WaitingIsSound(v: VmV)
    ensures Waiting(v) ==> Sound(v) && v.st.input.Some?
  {
  }

  lemma {:induction false} WaitingSeeks(rs: Resource, v: VmV, b: Bytes, n: nat)
    requires Waiting(v)
    ensures Seeking(Prelude(v)) && Prelude(v).st.input == v.st.input
    ensures n > 0 ==> Run(rs, v, b, n) == Run(rs, Prelude(v), b, n)
  {
    PreludeFirst(rs, v, b);
    assert Seeking(Prelude(v)) && Prelude(v).st.input == v.st.input;
    hide StepOf, Prelude, Idle, Seeking;
    if n > 0 {
      RunOnce(rs, v, b, n);
      RunOnce(rs, Prelude(v), b, n);
    }
  }

  /**
   The machine resumes on a list of INCMP instructions: the first entry the input hits is applied, once,
   and no other, unless it moves and an entry behind it has the input as its selector; when no entry is
   hit, the whole list is consumed without a move.
   */
  lemma {:induction false} DispatchOnResume(rs: Resource, v: VmV, es: seq<Entry>, rest: Bytes)
    requires Waiting(v) && es != [] && AllGood(es)
    requires var k := FirstHit(es, v.st.input.value);
      k < |es| ==> Unrepeated(rs, Flagged(Prelude(v)), es, k, v.st.input.value)
    ensures var b, p, k := EntriesBytes(es) + rest, Prelude(v), FirstHit(es, v.st.input.value);
      if k < |es| then Leads(rs, v, b, Flagged(p), es[k].target, EntriesBytes(es[k + 1..]), rest, |es|, k)
      else Run(rs, v, b, |es|) == Settle(rs, Onward(Reading(p), rest))
  {
    hide *;
    WaitingIsSound(v);
    var b, p, k := EntriesBytes(es) + rest, Prelude(v), FirstHit(es, v.st.input.value);
    WaitingSeeks(rs, v, b, |es|);
    WaitingSeeks(rs, v, b, k + 1);
    if k < |es| {
      FirstHitIs(es, v.st.input.value);
      FirstMatch(rs, p, es, rest, k);
      DispatchedIs(rs, p, es, rest, k);
      LeadsFrom(rs, v, p, b, Flagged(p), es[k].target, EntriesBytes(es[k + 1..]), rest, |es|, k);
    } else {
      NoHit(es, v.st.input.value);
      EntriesThenIs(es, rest);
      PassUnmatched(rs, p, es, rest);
    }
  }

  lemma LeadsFrom(rs: Resource, v: VmV, p: VmV, b: Bytes, w: VmV, target: Bytes, later: Bytes, rest: Bytes, n: nat, k: nat)
    requires Sound(v) && Sound(p) && Sound(w) && Leads(rs, p, b, w, target, later, rest, n, k)
    requires Run(rs, v, b, n) == Run(rs, p, b, n) && Run(rs, v, b, k + 1) == Run(rs, p, b, k + 1)
    ensures Leads(rs, v, b, w, target, later, rest, n, k)
  {
    hide Run, TargetOut, Settle, Arrived, Reading, ErrCheck, Failure;
  }

  lemma FirstHitIs(es: seq<Entry>, input: Bytes)
    requires FirstHit(es, input) < |es|
    ensures HitsAt(es, input, FirstHit(es, input))
  {
  }

  lemma NoHit(es: seq<Entry>, input: Bytes)
    requires FirstHit(es, input) == |es| && AllGood(es)
    ensures NoneHits(es, input)
  {
    hide GoodEntry, Hits;
  }

  // ----- input that nothing matches -----

  /** With no code left, unmatched input sends the machine to the catch node, with an error on the page. */
  lemma UnmatchedIsCaught(rs: Resource, v: VmV)
    requires Idle(v) && Where(v.st) != [] && Where(v.st) != CATCH_NODE
    ensures Settle(rs, Onward(Reading(v), [])) == Onward(Blamed(rs, Reading(v)), MOVE_CATCH)
  {
    assert Where(Reading(v).st) == Where(v.st);
  }

  /** The move to the catch node: one node and one cache level deeper, with the code found there. */
  lemma {:induction false} CatchMoves(rs: Resource, v: VmV, code: Bytes)
    requires Idle(v) && Where(v.st) != CATCH_NODE && |v.st.path| <= MAX_LEVEL && rs.code(CATCH_NODE) == Some(code)
    ensures StepOf(rs, v, MOVE_CATCH) == Settle(rs, Onward(Arrived(v, CATCH_NODE), code))
    ensures var r := Arrived(v, CATCH_NODE);
      r.st.path == v.st.path + [CATCH_NODE] && r.ca == CPush(v.ca) && r.st.idx == 0
  {
    var l := Line(MOVE, [CATCH_NODE], None, []);
    PreludeIdle(v);
    ReadOpcode(l, []);
    ReadArguments(l, []);
    assert LineBytes(l) + [] == MOVE_CATCH && Arguments(l) + [] == Arguments(l);
    assert ParseSym(Arguments(l)) == Ok(CATCH_NODE, []);
    assert TargetOut(v.st, CATCH_NODE) == To(CATCH_NODE);
    assert [] + code == code;
    hide OpSplit, ParseSym, LineBytes, Arguments, Prelude, DeadCheck, TargetOut;
  }
}
