/** The page sizer (render/size.go): the output limit and the cursors into paged sink content. */
module Sizing {
  import opened Common

  datatype SizerV = SizerV(outputSize: u32, members: map<Bytes, u16>, total: u32, crsrs: seq<u32>, sink: Bytes)

  /** `strings.Index` of one byte. */
  function IndexOf(s: Bytes, x: byte): (r: int)
    ensures -1 <= r < |s|
    ensures r == -1 <==> x !in s
    ensures r >= 0 ==> s[r] == x && x !in s[..r]
  {
    if s == [] then -1
    else if s[0] == x then 0
    else
      var r := IndexOf(s[1..], x);
      assert s == [s[0]] + s[1..];
      if r == -1 then -1
      else
        assert s[..r + 1] == [s[0]] + s[1..][..r];
        r + 1
  }

  /** The page that starts at byte `c` of flattened sink content, with its in-page newlines restored. */
  function PageAt(v: Bytes, c: nat): Bytes
    requires c <= |v|
  {
    var t := v[c..];
    var nl := IndexOf(t, LF);
    Replace(if nl > 0 then t[..nl] else t, NUL, LF)
  }

  /** Answers of GetAt; slicing past the end of the content panics. */
  datatype GetAtResult = Values(values: map<Bytes, Bytes>) | NoMore | Panic

  function GetAtV(s: SizerV, values: map<Bytes, Bytes>, idx: u16): GetAtResult {
    if s.sink == [] || s.sink !in values then Values(values)
    else if idx >= Wrap16(|s.crsrs|) then NoMore
    else if s.crsrs[idx] > |values[s.sink]| then Panic
    else Values(values[s.sink := PageAt(values[s.sink], s.crsrs[idx])])
  }

  /** The room left after `s`, or None when it exceeds the limit. With no limit the length is returned. */
  function CheckV(outputSize: u32, s: Bytes): Option<u32> {
    var l := Wrap32(|s|);
    if outputSize == 0 then Some(l)
    else if l > outputSize then None
    else Some(outputSize - l)
  }

  /**
   A text below 4 GiB passes exactly when it is no longer than the limit, and with the room that is left it
   makes up the limit. A longer one passes by its length modulo 2^32.
   */
  lemma CheckIff(outputSize: u32, s: Bytes)
    requires outputSize > 0
    ensures CheckV(outputSize, s).Some? <==> |s| % 0x1_0000_0000 <= outputSize
    ensures |s| < 0x1_0000_0000 ==> (CheckV(outputSize, s).Some? <==> |s| <= outputSize)
    ensures |s| <= outputSize ==> |s| + CheckV(outputSize, s).value == outputSize
  {
  }

  lemma Wrap16AtMost(n: nat)
    ensures Wrap16(n) <= n
  {
  }

  /** A copy that differs at most in the sink's entry is an update of that entry. */
  lemma SameValues(copy: map<Bytes, Bytes>, values: map<Bytes, Bytes>, sink: Bytes)
    requires copy.Keys == values.Keys
    requires forall k :: k in copy && k != sink ==> copy[k] == values[k]
    ensures copy == if sink in values then values[sink := copy[sink]] else values
  {
  }

  /** The copy has every entry but those to do; the sink's entry is the answer's. */
  ghost predicate Copied(copy: map<Bytes, Bytes>, values: map<Bytes, Bytes>, todo: set<Bytes>, sink: Bytes, answer: GetAtResult) {
    && todo <= values.Keys && copy.Keys == values.Keys - todo
    && (sink in copy ==> answer.Values? && sink in answer.values && copy[sink] == answer.values[sink])
    && forall k :: k in copy && k != sink ==> copy[k] == values[k]
  }

  lemma CopyOne(copy: map<Bytes, Bytes>, values: map<Bytes, Bytes>, todo: set<Bytes>, sink: Bytes, answer: GetAtResult,
                k: Bytes, v: Bytes)
    requires Copied(copy, values, todo, sink, answer) && k in todo
    requires if k == sink then answer.Values? && sink in answer.values && v == answer.values[sink]
             else k in values && v == values[k]
    ensures Copied(copy[k := v], values, todo - {k}, sink, answer)
  {
    assert values.Keys - (todo - {k}) == (values.Keys - todo) + {k};
  }

  lemma CopiedAll(copy: map<Bytes, Bytes>, values: map<Bytes, Bytes>, sink: Bytes, answer: GetAtResult)
    requires Copied(copy, values, {}, sink, answer)
    requires answer.Values? && sink in answer.values ==>
      answer.values == if sink in values then values[sink := answer.values[sink]] else values
    requires sink !in values ==> answer == Values(values)
    ensures answer == Values(copy)
  {
    SameValues(copy, values, sink);
  }

  class Sizer {
    var outputSize: u32
    var memberSizes: map<Bytes, u16>
    var totalMemberSize: u32
    var crsrs: seq<u32>
    var sink: Bytes

    ghost function View(): SizerV
      reads this
    {
      SizerV(outputSize, memberSizes, totalMemberSize, crsrs, sink)
    }

    constructor (size: u32)
      ensures View() == SizerV(size, map[], 0, [], [])
    {
      outputSize, memberSizes, totalMemberSize, crsrs, sink := size, map[], 0, [], [];
    }

    /** Registers a symbol; a size of zero makes it the sink. */
    method Set(key: Bytes, size: u16)
      modifies this
      ensures View() == old(View()).(
        members := old(memberSizes)[key := size],
        sink := if size == 0 then key else old(sink),
        total := Wrap32(old(totalMemberSize) + size))
    {
      memberSizes := memberSizes[key := size];
      if size == 0 {
        sink := key;
      }
      totalMemberSize := Wrap32(totalMemberSize + size);
    }

    method Check(s: Bytes) returns (r: Option<u32>)
      ensures r == CheckV(outputSize, s)
      ensures outputSize > 0 && |s| < 0x1_0000_0000 ==> (r.Some? <==> |s| <= outputSize)
      ensures outputSize > 0 && |s| <= outputSize ==> |s| + r.value == outputSize
    {
      var l := Wrap32(|s|);
      if outputSize > 0 {
        if l > outputSize {
          return None;
        }
        l := outputSize - l;
      }
      return Some(l);
    }

    method AddCursor(c: u32)
      modifies this
      ensures View() == old(View()).(crsrs := old(crsrs) + [c])
    {
      crsrs := crsrs + [c];
    }

    /** The part of the sink content that belongs to page `idx`; None when the index or its cursor is out of range. */
    method CutPage(content: Bytes, idx: u16) returns (r: Option<Bytes>)
      ensures r == if idx < Wrap16(|crsrs|) && crsrs[idx] <= |content| then Some(PageAt(content, crsrs[idx])) else None
    {
      var v := content;
      Wrap16AtMost(|crsrs|);
      if idx >= Wrap16(|crsrs|) {
        return None;
      }
      var c := crsrs[idx];
      if c > |v| {
        return None;
      }
      v := v[c..];
      var nl := IndexOf(v, LF);
      if nl > 0 {
        v := v[..nl];
      }
      v := Replace(v, NUL, LF);
      return Some(v);
    }

    method GetAt(values: map<Bytes, Bytes>, idx: u16) returns (r: GetAtResult)
      ensures r == GetAtV(View(), values, idx)
    {
      if sink == [] {
        return Values(values);
      }
      ghost var answer := GetAtV(View(), values, idx);
      Wrap16AtMost(|crsrs|);
      var outValues: map<Bytes, Bytes> := map[];
      var todo := values.Keys;
      assert Copied(outValues, values, todo, sink, answer);
      assert todo <= values.Keys;
      hide PageAt, Wrap16, Copied;
      while todo != {}
        invariant todo <= values.Keys && Copied(outValues, values, todo, sink, answer)
        decreases |todo|
      {
        var k :| k in todo;
        var v := values[k];
        if sink == k {
          var page := CutPage(v, idx);
          if page.None? {
            return if idx >= Wrap16(|crsrs|) then NoMore else Panic;
          }
          v := page.value;
        }
        CopyOne(outValues, values, todo, sink, answer, k, v);
        outValues := outValues[k := v];
        todo := todo - {k};
      }
      CopiedAll(outValues, values, sink, answer);
      return Values(outValues);
    }

    method Reset()
      modifies this
      ensures View() == old(View()).(crsrs := [])
    {
      crsrs := [];
    }
  }
}
