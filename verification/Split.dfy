/** Division of a list of values into pages by bookmarks (render/split.go). */
module Splitting {
  import opened Common

  /** Where each value starts, and where the last one ends, every value followed by a separator. */
  function BookmarksOf(values: seq<Bytes>): (r: seq<u32>)
    ensures |r| == |values| + 1
    ensures forall k :: 0 <= k < |r| ==> r[k] == Wrap32(Total(values[..k]) + k)
  {
    seq(|values| + 1, k requires 0 <= k <= |values| => Wrap32(Total(values[..k]) + k))
  }

  lemma TotalNext(values: seq<Bytes>, k: nat)
    requires k < |values|
    ensures Total(values[..k + 1]) == Total(values[..k]) + |values[k]|
  {
    assert values[..k + 1] == values[..k] + [values[k]];
    var one: seq<Bytes> := [values[k]];
    TotalAppend(values[..k], one);
    assert one[1..] == [];
  }

  method Bookmark(values: seq<Bytes>) returns (bookmarks: seq<u32>)
    ensures bookmarks == BookmarksOf(values)
  {
    hide Wrap32;
    var c: nat := 0;
    assert values[..0] == [];
    WrapSmall(0);
    bookmarks := [0];
    var i := 0;
    while i < |values|
      invariant 0 <= i <= |values| && c == Total(values[..i]) + i
      invariant bookmarks == BookmarksOf(values)[..i + 1]
    {
      TotalNext(values, i);
      c := c + |values[i]| + 1;
      bookmarks := bookmarks + [Wrap32(c)];
      i := i + 1;
    }
  }

  /** Bookmarks as paginate relies on them: from 0, strictly ascending, and with room for one byte more. */
  predicate Ascending(b: seq<u32>) {
    b != [] && b[0] == 0 && b[|b| - 1] < 0xFFFF_FFFF && forall i, j :: 0 <= i < j < |b| ==> b[i] < b[j]
  }

  lemma {:induction false} BookmarksAscend(values: seq<Bytes>)
    requires Total(values) + |values| < 0xFFFF_FFFF
    ensures Ascending(BookmarksOf(values)) && |BookmarksOf(values)| == |values| + 1
    ensures forall k :: 0 <= k <= |values| ==> BookmarksOf(values)[k] == Total(values[..k]) + k
  {
    var b := BookmarksOf(values);
    assert values[..|values|] == values && values[..0] == [];
    hide Wrap32, Total;
    forall k | 0 <= k < |b| ensures b[k] as int == Total(values[..k]) + k {
      TotalMore(values, k, |values|);
      WrapSmall(Total(values[..k]) + k);
    }
    forall i, j | 0 <= i < j < |b| ensures b[i] < b[j] {
      TotalMore(values, i, j);
    }
    NoTotal();
  }

  lemma NoTotal()
    ensures Total([]) == 0
  {
  }

  lemma TotalMore(values: seq<Bytes>, i: nat, j: nat)
    requires i <= j <= |values|
    ensures Total(values[..i]) <= Total(values[..j])
  {
    assert values[..j] == values[..i] + values[i..j];
    TotalAppend(values[..i], values[i..j]);
  }

  // ----- pages -----

  /** The bytes accounted for values `i` to `j` on one page: their span, and one more each. */
  function Spanned(b: seq<u32>, i: nat, j: nat): int
    requires i <= j < |b|
  {
    b[j] - b[i] + (j - i)
  }

  /** How far a page that starts at `start` gets within `room`, from `i` on. */
  function Fill(b: seq<u32>, start: nat, i: nat, room: int): (e: nat)
    requires start <= i < |b|
    ensures i <= e < |b|
    ensures e > i ==> Spanned(b, start, e) <= room
    ensures e < |b| - 1 ==> Spanned(b, start, e + 1) > room
    decreases |b| - i
  {
    if i < |b| - 1 && Spanned(b, start, i + 1) <= room then Fill(b, start, i + 1, room) else i
  }

  /** A page takes the values from `start` to `stop`. */
  datatype Span = Span(start: nat, stop: nat)

  datatype DivideOut = TooSmall | Divided(spans: seq<Span>)

  /** The room on a page that starts at value `i`, without and with the line that leads to the next page. */
  function Room(capacity: u32, prevSize: u32, i: nat): int {
    if i > 0 then capacity - prevSize else capacity
  }

  function RoomFor(b: seq<u32>, capacity: u32, nextSize: u32, prevSize: u32, i: nat): int
    requires i < |b|
  {
    if EndsAt(b, capacity, prevSize, i) then Room(capacity, prevSize, i) else Room(capacity, prevSize, i) - nextSize
  }

  /**
   Whether the page from value `i` is taken for the last: by the span that is left, without the extra byte a
   value.
   */
  predicate EndsAt(b: seq<u32>, capacity: u32, prevSize: u32, i: nat)
    requires i < |b|
  {
    b[|b| - 1] - b[i] <= Room(capacity, prevSize, i)
  }

  /** The division from value `i` on: pages are filled in turn until one is taken for the last. */
  function Divide(b: seq<u32>, capacity: u32, nextSize: u32, prevSize: u32, i: nat): (d: DivideOut)
    requires Ascending(b) && i < |b| - 1
    ensures d.Divided? ==> d.spans != [] && forall s :: s in d.spans ==> s.start <= s.stop < |b|
    decreases |b| - i
  {
    var room := RoomFor(b, capacity, nextSize, prevSize, i);
    if Room(capacity, prevSize, i) < 0 || room < 0 || Spanned(b, i, i + 1) > room then TooSmall
    else
      var e := Fill(b, i, i, room);
      if EndsAt(b, capacity, prevSize, i) then Divided([Span(i, e)])
      else
        NotYetAll(b, capacity, nextSize, prevSize, i, e);
        var rest := Divide(b, capacity, nextSize, prevSize, e);
        if rest.TooSmall? then TooSmall else Divided([Span(i, e)] + rest.spans)
  }

  /** A page that is not taken for the last never takes all that is left. */
  lemma NotYetAll(b: seq<u32>, capacity: u32, nextSize: u32, prevSize: u32, i: nat, e: nat)
    requires Ascending(b) && i < |b| - 1 && !EndsAt(b, capacity, prevSize, i)
    requires e == Fill(b, i, i, RoomFor(b, capacity, nextSize, prevSize, i))
    ensures e < |b| - 1
  {
  }

  /** The pages of some spans: the bookmarks of the values on each. */
  function PagesOf(b: seq<u32>, spans: seq<Span>): (r: seq<seq<u32>>)
    requires forall s :: s in spans ==> s.start <= s.stop < |b|
    ensures |r| == |spans| && forall k :: 0 <= k < |r| ==> r[k] == b[spans[k].start..spans[k].stop]
  {
    seq(|spans|, k requires 0 <= k < |spans| => b[spans[k].start..spans[k].stop])
  }

  /** The last page also gets the end mark. */
  function Closed(pages: seq<seq<u32>>, last: u32): seq<seq<u32>>
    requires pages != []
  {
    pages[|pages| - 1 := pages[|pages| - 1] + [last]]
  }

  /** Consecutive spans from the first value to value `upTo`, all but the last of them followed by another. */
  predicate Consecutive(spans: seq<Span>, i: nat, upTo: nat) {
    && (spans == [] ==> i == upTo)
    && (spans != [] ==> spans[0].start == i && spans[|spans| - 1].stop == upTo)
    && (forall k :: 0 <= k < |spans| ==> spans[k].start < spans[k].stop)
    && (forall k :: 0 < k < |spans| ==> spans[k].start == spans[k - 1].stop)
  }

  /** A page holds as much as it has room for, and no more. */
  predicate Packed(b: seq<u32>, s: Span, room: int) {
    && s.start <= s.stop < |b|
    && Spanned(b, s.start, s.stop) <= room
    && (s.stop < |b| - 1 ==> Spanned(b, s.start, s.stop + 1) > room)
  }

  /**
   What a division is: consecutive non-empty pages, each packed for the room it has, the last one and only
   it taken for the last.
   */
  predicate WellDivided(b: seq<u32>, capacity: u32, nextSize: u32, prevSize: u32, i: nat, spans: seq<Span>) {
    && spans != [] && Consecutive(spans, i, spans[|spans| - 1].stop)
    && (forall k :: 0 <= k < |spans| ==> spans[k].start < |b|)
    && (forall k :: 0 <= k < |spans| ==> Packed(b, spans[k], RoomFor(b, capacity, nextSize, prevSize, spans[k].start)))
    && (forall k :: 0 <= k < |spans| ==> (EndsAt(b, capacity, prevSize, spans[k].start) <==> k == |spans| - 1))
  }

  lemma {:induction false} DivideIs(b: seq<u32>, capacity: u32, nextSize: u32, prevSize: u32, i: nat)
    requires Ascending(b) && i < |b| - 1 && Divide(b, capacity, nextSize, prevSize, i).Divided?
    ensures WellDivided(b, capacity, nextSize, prevSize, i, Divide(b, capacity, nextSize, prevSize, i).spans)
    decreases |b| - i
  {
    var room := RoomFor(b, capacity, nextSize, prevSize, i);
    var e := Fill(b, i, i, room);
    FillStarts(b, i, room);
    assert Packed(b, Span(i, e), room);
    hide Packed, Fill, RoomFor, EndsAt, Spanned, Ascending, WellDivided;
    if EndsAt(b, capacity, prevSize, i) {
      OneDivided(b, capacity, nextSize, prevSize, i, e);
    } else {
      NotYetAll(b, capacity, nextSize, prevSize, i, e);
      var rest := Divide(b, capacity, nextSize, prevSize, e).spans;
      DivideIs(b, capacity, nextSize, prevSize, e);
      MoreDivided(b, capacity, nextSize, prevSize, i, e, rest);
    }
  }

  /**
   A division in numbers. Each page has the capacity, less the previous line on all pages but the first, and less the next line on
   all but the last. It is the last exactly when the span that is left is within that. A page takes its values, a byte more for each, as
   long as they fit.
   */
  lemma {:induction false} DivideMeans(b: seq<u32>, capacity: u32, nextSize: u32, prevSize: u32)
    requires Ascending(b) && |b| > 1 && Divide(b, capacity, nextSize, prevSize, 0).Divided?
    ensures var spans, n := Divide(b, capacity, nextSize, prevSize, 0).spans, |b| - 1;
      forall k :: 0 <= k < |spans| ==>
        var s, last := spans[k], k == |spans| - 1;
        var space := capacity - if s.start > 0 then prevSize else 0;
        var room := if last then space else space - nextSize;
        && s.start < s.stop <= n && (k == 0 ==> s.start == 0) && (k > 0 ==> s.start == spans[k - 1].stop)
        && (last <==> b[n] - b[s.start] <= space)
        && b[s.stop] - b[s.start] + (s.stop - s.start) <= room
        && (s.stop < n ==> b[s.stop + 1] - b[s.start] + (s.stop + 1 - s.start) > room)
  {
    hide Divide;
    DivideIs(b, capacity, nextSize, prevSize, 0);
  }

  lemma OneDivided(b: seq<u32>, capacity: u32, nextSize: u32, prevSize: u32, i: nat, e: nat)
    requires i < e < |b| && EndsAt(b, capacity, prevSize, i)
    requires Packed(b, Span(i, e), RoomFor(b, capacity, nextSize, prevSize, i))
    ensures WellDivided(b, capacity, nextSize, prevSize, i, [Span(i, e)])
  {
    hide Packed, RoomFor, EndsAt;
  }

  lemma MoreDivided(b: seq<u32>, capacity: u32, nextSize: u32, prevSize: u32, i: nat, e: nat, rest: seq<Span>)
    requires i < e < |b| && !EndsAt(b, capacity, prevSize, i)
    requires Packed(b, Span(i, e), RoomFor(b, capacity, nextSize, prevSize, i))
    requires WellDivided(b, capacity, nextSize, prevSize, e, rest)
    ensures WellDivided(b, capacity, nextSize, prevSize, i, [Span(i, e)] + rest)
  {
    hide Packed, RoomFor, EndsAt;
    var spans := [Span(i, e)] + rest;
    assert forall k :: 0 < k < |spans| ==> spans[k] == rest[k - 1];
  }

  lemma FillStarts(b: seq<u32>, i: nat, room: int)
    requires i < |b| - 1 && Spanned(b, i, i + 1) <= room
    ensures Fill(b, i, i, room) > i
  {
  }

  /**
   The last page is chosen by the span that is left, but filled with one more byte counted for each value:
   every value is on a page exactly when those bytes fit as well.
   */
  lemma AllPlacedIff(b: seq<u32>, capacity: u32, nextSize: u32, prevSize: u32)
    requires Ascending(b) && |b| > 1 && Divide(b, capacity, nextSize, prevSize, 0).Divided?
    ensures var spans := Divide(b, capacity, nextSize, prevSize, 0).spans;
      spans != [] &&
      var s := spans[|spans| - 1];
      s.stop == |b| - 1 <==>
        s.start < |b| && b[|b| - 1] - b[s.start] + (|b| - 1 - s.start) <= Room(capacity, prevSize, s.start)
  {
    DivideIs(b, capacity, nextSize, prevSize, 0);
    hide Divide;
    var spans := Divide(b, capacity, nextSize, prevSize, 0).spans;
    var s := spans[|spans| - 1];
    assert Packed(b, s, RoomFor(b, capacity, nextSize, prevSize, s.start)) && EndsAt(b, capacity, prevSize, s.start);
    hide WellDivided;
    LastPlacedIff(b, capacity, nextSize, prevSize, s);
  }

  lemma LastPlacedIff(b: seq<u32>, capacity: u32, nextSize: u32, prevSize: u32, s: Span)
    requires Ascending(b) && s.start < |b| && EndsAt(b, capacity, prevSize, s.start)
    requires Packed(b, s, RoomFor(b, capacity, nextSize, prevSize, s.start))
    ensures s.stop == |b| - 1 <==> b[|b| - 1] - b[s.start] + (|b| - 1 - s.start) <= Room(capacity, prevSize, s.start)
  {
    if s.stop < |b| - 1 {
      assert b[s.stop + 1] <= b[|b| - 1];
    }
  }

  /** Values do get lost: of five values of one byte, the fifth, in pages of six bytes without browse lines. */
  lemma ValuesAreLost()
    ensures var b: seq<u32> := [0, 2, 4, 6, 8, 10];
      Ascending(b) && Divide(b, 6, 0, 0, 0) == Divided([Span(0, 2), Span(2, 4)])
  {
    var b: seq<u32> := [0, 2, 4, 6, 8, 10];
    assert Fill(b, 0, 2, 6) == 2;
    assert Fill(b, 0, 0, 6) == Fill(b, 0, 1, 6) == 2;
    assert Fill(b, 2, 4, 6) == 4;
    assert Fill(b, 2, 2, 6) == Fill(b, 2, 3, 6) == 4;
    hide Fill;
    assert Divide(b, 6, 0, 0, 2) == Divided([Span(2, 4)]);
    assert [Span(0, 2)] + [Span(2, 4)] == [Span(0, 2), Span(2, 4)];
  }

  datatype Paginated = Refused | Pages(pages: seq<seq<u32>>)

  method IsLast(cursor: u32, end: u32, capacity: u32) returns (r: bool)
    requires cursor <= end
    ensures r <==> end - cursor <= capacity
  {
    var l := end - cursor;
    var remaining := capacity;
    return l <= remaining;
  }

  /** The room on the page from value `i` on, negative when there is none, and whether it is taken for the last. */
  method PageRoom(bookmarks: seq<u32>, capacity: u32, nextSize: u32, prevSize: u32, i: nat) returns (remaining: int, ends: bool)
    requires Ascending(bookmarks) && i < |bookmarks| - 1
    ensures remaining < 0 <==>
      Room(capacity, prevSize, i) < 0 || RoomFor(bookmarks, capacity, nextSize, prevSize, i) < 0
    ensures remaining >= 0 ==>
      remaining == RoomFor(bookmarks, capacity, nextSize, prevSize, i) && (ends <==> EndsAt(bookmarks, capacity, prevSize, i))
  {
    remaining, ends := capacity, false;
    if i > 0 {
      remaining := remaining - prevSize;
    }
    if remaining < 0 {
      return;
    }
    Ordered(bookmarks, i);
    ends := IsLast(bookmarks[i], bookmarks[|bookmarks| - 1], remaining);
    if !ends {
      remaining := remaining - nextSize;
    }
  }

  /** The inner loop of paginate: takes values for one page from value `start` on. False when the first does not fit. */
  method FillPage(bookmarks: seq<u32>, start: nat, remaining: int)
    returns (fits: bool, i: nat, page: seq<u32>)
    requires Ascending(bookmarks) && start < |bookmarks| - 1 && remaining >= 0
    ensures fits <==> Spanned(bookmarks, start, start + 1) <= remaining
    ensures fits ==> i == Fill(bookmarks, start, start, remaining) && page == bookmarks[start..i]
  {
    hide Fill, Ascending;
    var lastIndex := |bookmarks| - 1;
    var lookAhead := bookmarks[1..];
    var c := bookmarks[start];
    var z: int := 0;
    i, page := start, [];
    while i < lastIndex
      invariant start <= i <= lastIndex && c == bookmarks[i]
      invariant z == Spanned(bookmarks, start, i) <= remaining
      invariant page == bookmarks[start..i]
      invariant Fill(bookmarks, start, start, remaining) == Fill(bookmarks, start, i, remaining)
      invariant i > start ==> z > 0 && Spanned(bookmarks, start, start + 1) <= remaining
    {
      FillStep(bookmarks, start, i, remaining);
      Ordered(bookmarks, i);
      var v := lookAhead[i];
      var delta := (v - c) + 1;
      if z == 0 {
        if delta > remaining {
          return false, i, page;
        }
      }
      z := z + delta;
      if z > remaining {
        break;
      }
      assert bookmarks[start..i] + [bookmarks[i]] == bookmarks[start..i + 1];
      page := page + [bookmarks[i]];
      c := v;
      i := i + 1;
    }
    FillStep(bookmarks, start, i, remaining);
    return true, i, page;
  }

  /** The division as pages; no bookmarks are refused, and what fits on one page is one page. */
  function PaginateOut(b: seq<u32>, capacity: u32, nextSize: u32, prevSize: u32): Paginated
    requires b != [] ==> Ascending(b)
  {
    if b == [] then Refused
    else if b[|b| - 1] <= capacity then Pages([b])
    else
      var d := Divide(b, capacity, nextSize, prevSize, 0);
      if d.TooSmall? then Refused else Pages(Closed(PagesOf(b, d.spans), b[|b| - 1]))
  }

  method Paginate(bookmarks: seq<u32>, capacity: u32, nextSize: u32, prevSize: u32) returns (r: Paginated)
    requires bookmarks != [] ==> Ascending(bookmarks)
    ensures r == PaginateOut(bookmarks, capacity, nextSize, prevSize)
  {
    hide *;
    OnePageAtMost(bookmarks, capacity, nextSize, prevSize);
    if |bookmarks| == 0 {
      return Refused;
    }
    var lastIndex := |bookmarks| - 1;
    var last := bookmarks[lastIndex];
    var trivial := IsLast(0, last, capacity);
    if trivial {
      return Pages([bookmarks]);
    }
    var pages: seq<seq<u32>> := [[]];
    var i := 0;
    var haveMore := true;
    ghost var spans: seq<Span> := [];
    PagedAtStart(bookmarks, capacity, nextSize, prevSize);
    while haveMore
      invariant 0 <= i <= lastIndex && (haveMore ==> i < lastIndex) && pages != []
      invariant Paged(bookmarks, capacity, nextSize, prevSize, pages, spans, i, haveMore)
      decreases haveMore, lastIndex - i
    {
      PageTurned(bookmarks, capacity, nextSize, prevSize, pages, spans, i);
      var remaining, ends := PageRoom(bookmarks, capacity, nextSize, prevSize, i);
      if remaining < 0 {
        return Refused;
      }
      haveMore := !ends;
      var fits, stop, page := FillPage(bookmarks, i, remaining);
      if !fits {
        return Refused;
      }
      spans := spans + [Span(i, stop)];
      i := stop;
      pages := pages[|pages| - 1 := page];
      if haveMore {
        pages := pages + [[]];
      }
    }
    PagedAtEnd(bookmarks, capacity, nextSize, prevSize, pages, spans, i);
    var l := |pages| - 1;
    pages := pages[l := pages[l] + [last]];
    return Pages(pages);
  }

  /**
   The state of the loop over the pages: `spans` are done, and `more` says whether another page is begun at
   value `i`.
   */
  predicate Paged(b: seq<u32>, capacity: u32, nextSize: u32, prevSize: u32, pages: seq<seq<u32>>, spans: seq<Span>, i: nat,
                  more: bool)
    requires Ascending(b) && i < |b| && |b| > 1
  {
    && SpansInRange(b, spans)
    && if more then i < |b| - 1 && pages == PagesOf(b, spans) + [[]] && DividesOn(b, capacity, nextSize, prevSize, spans, i)
       else spans != [] && pages == PagesOf(b, spans) && Divide(b, capacity, nextSize, prevSize, 0) == Divided(spans)
  }

  /** No bookmarks are refused, and what fits on one page is one page; otherwise there are values to divide. */
  lemma OnePageAtMost(b: seq<u32>, capacity: u32, nextSize: u32, prevSize: u32)
    requires b != [] ==> Ascending(b)
    ensures b == [] ==> PaginateOut(b, capacity, nextSize, prevSize) == Refused
    ensures b != [] && b[|b| - 1] <= capacity ==> PaginateOut(b, capacity, nextSize, prevSize) == Pages([b])
    ensures b != [] && b[|b| - 1] > capacity ==> |b| > 1
  {
    hide Divide;
  }

  lemma PagedAtStart(b: seq<u32>, capacity: u32, nextSize: u32, prevSize: u32)
    requires Ascending(b) && |b| > 1
    ensures Paged(b, capacity, nextSize, prevSize, [[]], [], 0, true)
  {
    NoSpans(b, capacity, nextSize, prevSize);
    hide Divide, DividesOn;
  }

  lemma PagedAtEnd(b: seq<u32>, capacity: u32, nextSize: u32, prevSize: u32, pages: seq<seq<u32>>, spans: seq<Span>, i: nat)
    requires |b| > 1 && Ascending(b) && i < |b| && Paged(b, capacity, nextSize, prevSize, pages, spans, i, false)
    requires b[|b| - 1] > capacity
    ensures pages != [] && PaginateOut(b, capacity, nextSize, prevSize) ==
      Pages(pages[|pages| - 1 := pages[|pages| - 1] + [b[|b| - 1]]])
  {
    hide Divide;
  }

  /** One page more, or the end of the attempt. */
  lemma PageTurned(b: seq<u32>, capacity: u32, nextSize: u32, prevSize: u32, pages: seq<seq<u32>>, spans: seq<Span>, i: nat)
    requires Ascending(b) && i < |b| - 1 && Paged(b, capacity, nextSize, prevSize, pages, spans, i, true)
    requires b[|b| - 1] > capacity
    ensures var room := RoomFor(b, capacity, nextSize, prevSize, i);
      var e, more := Fill(b, i, i, room), !EndsAt(b, capacity, prevSize, i);
      if Room(capacity, prevSize, i) < 0 || room < 0 || Spanned(b, i, i + 1) > room then
        PaginateOut(b, capacity, nextSize, prevSize) == Refused
      else
        && pages != [] && (more ==> i < e < |b| - 1) && i < e
        && var pages' := pages[|pages| - 1 := b[i..e]];
           && (more ==> Paged(b, capacity, nextSize, prevSize, pages' + [[]], spans + [Span(i, e)], e, true))
           && (!more ==> Paged(b, capacity, nextSize, prevSize, pages', spans + [Span(i, e)], e, false))
  {
    DivideStep(b, capacity, nextSize, prevSize, spans, i);
    var room := RoomFor(b, capacity, nextSize, prevSize, i);
    var e := Fill(b, i, i, room);
    OneMoreSpan(b, spans, Span(i, e));
    if Spanned(b, i, i + 1) <= room {
      FillStarts(b, i, room);
    }
    hide Divide, Fill, PagesOf, Ascending, Spanned, DividesOn, RoomFor, SpansInRange;
    assert pages[|pages| - 1 := b[i..e]] == PagesOf(b, spans) + [b[i..e]];
  }

  lemma Ordered(b: seq<u32>, i: nat)
    requires Ascending(b) && i < |b| - 1
    ensures b[0] == 0 && b[i] < b[i + 1] <= b[|b| - 1] < 0xFFFF_FFFF
  {
  }

  predicate SpansInRange(b: seq<u32>, spans: seq<Span>) {
    forall s :: s in spans ==> s.start <= s.stop < |b|
  }

  lemma NoSpans(b: seq<u32>, capacity: u32, nextSize: u32, prevSize: u32)
    requires Ascending(b) && |b| > 1
    ensures PagesOf(b, []) + [[]] == [[]]
    ensures DividesOn(b, capacity, nextSize, prevSize, [], 0)
  {
    hide Divide;
    var d := Divide(b, capacity, nextSize, prevSize, 0);
    assert d.Divided? ==> [] + d.spans == d.spans;
  }

  lemma OneMoreSpan(b: seq<u32>, spans: seq<Span>, s: Span)
    requires SpansInRange(b, spans) && s.start <= s.stop < |b|
    ensures SpansInRange(b, spans + [s]) && PagesOf(b, spans + [s]) == PagesOf(b, spans) + [b[s.start..s.stop]]
  {
  }

  lemma FillStep(b: seq<u32>, start: nat, i: nat, room: int)
    requires start <= i < |b|
    ensures if i < |b| - 1 && Spanned(b, start, i + 1) <= room then Fill(b, start, i, room) == Fill(b, start, i + 1, room)
            else Fill(b, start, i, room) == i
  {
  }

  /** With `spans` done, the rest of the division starts at value `i`. */
  predicate DividesOn(b: seq<u32>, capacity: u32, nextSize: u32, prevSize: u32, spans: seq<Span>, i: nat)
    requires Ascending(b) && i < |b| - 1
  {
    var d, rest := Divide(b, capacity, nextSize, prevSize, 0), Divide(b, capacity, nextSize, prevSize, i);
    if rest.TooSmall? then d.TooSmall? else d == Divided(spans + rest.spans)
  }

  /** One page more. */
  lemma DivideStep(b: seq<u32>, capacity: u32, nextSize: u32, prevSize: u32, spans: seq<Span>, i: nat)
    requires Ascending(b) && i < |b| - 1 && DividesOn(b, capacity, nextSize, prevSize, spans, i)
    ensures var room := RoomFor(b, capacity, nextSize, prevSize, i);
      var d, e := Divide(b, capacity, nextSize, prevSize, 0), Fill(b, i, i, room);
      if Room(capacity, prevSize, i) < 0 || room < 0 || Spanned(b, i, i + 1) > room then d.TooSmall?
      else if EndsAt(b, capacity, prevSize, i) then d == Divided(spans + [Span(i, e)])
      else i < e < |b| - 1 && DividesOn(b, capacity, nextSize, prevSize, spans + [Span(i, e)], e)
  {
    var room := RoomFor(b, capacity, nextSize, prevSize, i);
    if Spanned(b, i, i + 1) <= room {
      FillStarts(b, i, room);
    }
    hide Spanned, Fill, Ascending;
    var e := Fill(b, i, i, room);
    if !EndsAt(b, capacity, prevSize, i) {
      NotYetAll(b, capacity, nextSize, prevSize, i, e);
      var rest := Divide(b, capacity, nextSize, prevSize, e);
      if rest.Divided? {
        assert spans + ([Span(i, e)] + rest.spans) == (spans + [Span(i, e)]) + rest.spans;
      }
    }
  }
}
