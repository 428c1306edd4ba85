/** Where the targets lead (vm/input.go): node, page and cache level, for each of them. */
module Targets {
  import opened Common
  import opened States
  import opened Caching
  import opened Navigation

  /** A move: where it ends, and what it makes of state and cache. Every move is counted. */
  ghost predicate Arrives(p: Place, target: Bytes, node: Bytes, path: seq<Bytes>, idx: u16, frames: seq<Frame>)
    requires |p.ca.frames| >= 1
  {
    && TargetOut(p.st, target) == To(node)
    && var q := TargetPlace(p, target);
    && q.st.path == path && q.st.idx == idx && q.ca.frames == frames
    && q.st.flags == p.st.flags && q.st.input == p.st.input && q.ca.last == p.ca.last
  }

  /** A target that is no move: everything stays. */
  ghost predicate Stays(p: Place, target: Bytes, out: Nav)
    requires |p.ca.frames| >= 1
  {
    TargetOut(p.st, target) == out && TargetPlace(p, target) == p
  }

  /** The last node of a path, or none. */
  function Last(path: seq<Bytes>): Bytes {
    if path == [] then [] else path[|path| - 1]
  }

  /** `_` leaves the node and its cache level, for the first page of the node above. */
  lemma UpLeads(p: Place)
    requires |p.ca.frames| >= 1
    ensures
      if p.st.path == [] then Stays(p, [95], Refused)
      else
        var above := p.st.path[..|p.st.path| - 1];
        Arrives(p, [95], Last(above), above, 0, FramesLeft(p.ca.frames, 1))
  {
    PopFrames(p.ca);
    hide FrameTotal;
  }

  /** `>` turns to the next page, and nothing else. */
  lemma NextLeads(p: Place)
    requires |p.ca.frames| >= 1
    ensures
      if p.st.path == [] then Stays(p, [62], Refused)
      else Arrives(p, [62], Last(p.st.path), p.st.path, (p.st.idx + 1) % 0x1_0000, p.ca.frames) && TargetPlace(p, [62]).ca == p.ca
  {
  }

  /** `<` turns to the page before, if there is one. */
  lemma PreviousLeads(p: Place)
    requires |p.ca.frames| >= 1
    ensures
      if p.st.path == [] then Stays(p, [60], Refused)
      else if p.st.idx == 0 then Stays(p, [60], AtFirstPage)
      else Arrives(p, [60], Last(p.st.path), p.st.path, p.st.idx - 1, p.ca.frames) && TargetPlace(p, [60]).ca == p.ca
  {
  }

  /** `^` leaves all nodes but the first, with their cache levels; at the first node the page stays. */
  lemma TopLeads(p: Place)
    requires |p.ca.frames| >= 1
    ensures
      if p.st.path == [] then Stays(p, [94], To([]))
      else Arrives(p, [94], p.st.path[0], [p.st.path[0]], if |p.st.path| == 1 then p.st.idx else 0,
                 FramesLeft(p.ca.frames, |p.st.path| - 1))
  {
    hide FramesLeft;
    if p.st.path != [] {
      RewindLeads(p);
      assert p.st.path[..1] == [p.st.path[0]];
    }
    hide RewindPlace;
  }

  lemma {:induction false} RewindLeads(p: Place)
    requires |p.ca.frames| >= 1 && p.st.path != []
    ensures var q := RewindPlace(p);
      && q.ca.frames == FramesLeft(p.ca.frames, |p.st.path| - 1) && q.ca.last == p.ca.last
      && q.st.idx == if |p.st.path| == 1 then p.st.idx else 0
    decreases |p.st.path|
  {
    if |p.st.path| > 1 {
      var q := Place(SUp(p.st), CPop(p.ca));
      PopFrames(p.ca);
      PoppedIsGone(p.ca);
      hide CPop;
      RewindLeads(q);
    }
  }

  /** `.` stays, at the node and on the page. */
  lemma SameLeads(p: Place)
    requires |p.ca.frames| >= 1
    ensures Arrives(p, [46], Last(p.st.path), p.st.path, p.st.idx, p.ca.frames) && TargetPlace(p, [46]).ca == p.ca
  {
  }

  /**
   A name enters the node, on its first page and with a cache level of its own. It is a panic on a stack of 129 nodes and
   from the node itself.
   */
  lemma NameLeads(p: Place, target: Bytes)
    requires |p.ca.frames| >= 1 && ValidTarget(target) && target !in {[95], [62], [60], [94], [46]}
    ensures
      if |p.st.path| > 128 || (p.st.path != [] && Last(p.st.path) == target) then Stays(p, target, NavPanic)
      else Arrives(p, target, target, p.st.path + [target], 0, p.ca.frames + [map[]])
  {
    hide ValidTarget;
  }

  /** Anything else is refused. */
  lemma OtherRefused(p: Place, target: Bytes)
    requires |p.ca.frames| >= 1 && !ValidTarget(target)
    ensures Stays(p, target, Refused)
  {
    hide ValidTarget;
  }

  /** A letter or digit. */
  predicate LetterOrDigit(b: byte) {
    b in [48, 49, 50, 51, 52, 53, 54, 55, 56, 57] || 65 <= b < 65 + 26 || 97 <= b < 97 + 26
  }

  /** The targets: five signs, `_catch`, and names of two bytes or more from letters, digits and, behind the first, underscores. */
  lemma TargetsAre(s: Bytes)
    ensures ValidTarget(s) <==>
      || s in {[95], [62], [60], [94], [46], [95, 99, 97, 116, 99, 104]}
      || (|s| > 1 && LetterOrDigit(s[0]) && forall b :: b in s ==> LetterOrDigit(b) || b == 95)
  {
    assert forall b :: Alphanumeric(b) == LetterOrDigit(b);
    if |s| > 1 && LetterOrDigit(s[0]) {
      if forall b :: b in s ==> LetterOrDigit(b) || b == 95 {
        assert forall i :: 1 <= i < |s| ==> s[i] in s;
        assert ValidSym(s);
      } else {
        var b :| b in s && !LetterOrDigit(b) && b != 95;
        var i :| 0 <= i < |s| && s[i] == b;
        assert i >= 1;
      }
    }
  }
}
