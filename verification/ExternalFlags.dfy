/** What external code can do to the flags. */
module ExternalFlags {
  import opened Common
  import opened States
  import opened Resources
  import opened Running

  /** Every flag of the list that external code may write exists. */
  predicate InRange(list: seq<u32>, n: nat) {
    forall f :: f in list && f > 5 ==> f < n
  }

  lemma {:induction false} WrittenFlags(flags: Flags, list: seq<u32>, value: bool)
    ensures var r := WriteFlags(flags, list, value);
      && (r.Some? <==> InRange(list, |flags|))
      && (r.Some? ==> forall k: u32 :: k < |flags| ==>
            r.value[k] == if k > 5 && k in list then value else flags[k])
    decreases |list|
  {
    if list != [] {
      assert forall k :: k in list <==> k == list[0] || k in list[1..];
      var n := |flags|;
      assert InRange(list, n) <==> (list[0] > 5 ==> list[0] < n) && InRange(list[1..], n) by {
        assert list[0] in list;
      }
      if !IsWriteableFlag(list[0]) {
        WrittenFlags(flags, list[1..], value);
      } else if list[0] < |flags| {
        WrittenFlags(flags[list[0] as int := value], list[1..], value);
      }
    }
  }

  /**
   A refresh panics exactly when external code names a writeable flag that does not exist. Otherwise the
   first six flags are left alone, except that a failure raises LOADFAIL, and each other flag is set if
   external code sets it, cleared if it only resets it, and kept if it does neither.
   */
  lemma RefreshFlags(rs: Resource, v: VmV, key: Bytes)
    requires Sound(v)
    ensures var f, r := rs.fetch(v.calls, key, v.st.input), RefreshState(rs, v, key).st.flags;
      match f
      case NoFunction => r == v.st.flags
      case Failed => r == v.st.flags[3 := true]
      case Got(_, reset, set_) =>
        if !InRange(reset, |v.st.flags|) || !InRange(set_, |v.st.flags|) then RefreshOut(rs, v, key).RefreshPanic?
        else
          && RefreshOut(rs, v, key).Content?
          && forall k: u32 :: k < |v.st.flags| ==>
               r[k] == if k <= 5 then v.st.flags[k] else if k in set_ then true else if k in reset then false else v.st.flags[k]
  {
    var f := rs.fetch(v.calls, key, v.st.input);
    if f.Got? {
      WrittenFlags(v.st.flags, f.flagReset, false);
      var cleared := WriteFlags(v.st.flags, f.flagReset, false);
      if cleared.Some? {
        WrittenFlags(cleared.value, f.flagSet, true);
      }
    }
    hide WriteFlags;
  }

  /** What a refresh answers: an error without a function, and for one that fails; else the content. It is one call more. */
  lemma RefreshAnswers(rs: Resource, v: VmV, key: Bytes)
    requires Sound(v)
    ensures var f, r := rs.fetch(v.calls, key, v.st.input), RefreshOut(rs, v, key);
      match f
      case NoFunction => r == NotRefreshed(NoFetcher)
      case Failed => r == NotRefreshed(FetchFailed(key))
      case Got(content, reset, set_) =>
        r == if InRange(reset, |v.st.flags|) && InRange(set_, |v.st.flags|) then Content(content) else RefreshPanic
    ensures RefreshState(rs, v, key).calls == v.calls + 1
  {
    RefreshFlags(rs, v, key);
    hide WriteFlags;
  }
}
