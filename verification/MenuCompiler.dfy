/** The menu batch compiler (asm/menu.go), and what the code it makes does when it runs. */
module MenuCompiler {
  import opened Common
  import opened Codec
  import opened CodecProofs
  import opened Navigation
  import opened Dispatch

  datatype BatchCode = MenuDown | MenuUp | MenuNext | MenuPrevious

  datatype MenuItem = MenuItem(code: BatchCode, choice: Bytes, display: Bytes, target: Bytes)

  const DOWN_NAME: Bytes := [68, 79, 87, 78]
  const UP_NAME: Bytes := [85, 80]
  const NEXT_NAME: Bytes := [78, 69, 88, 84]
  const PREVIOUS_NAME: Bytes := [80, 82, 69, 86, 73, 79, 85, 83]

  function BatchCodeOf(bop: Bytes): Option<BatchCode> {
    if bop == DOWN_NAME then Some(MenuDown)
    else if bop == UP_NAME then Some(MenuUp)
    else if bop == NEXT_NAME then Some(MenuNext)
    else if bop == PREVIOUS_NAME then Some(MenuPrevious)
    else None
  }

  /** The line in front of the HALT, which puts the item on the menu. */
  function PreLine(i: MenuItem): Line {
    Line(if i.code == MenuNext then MNEXT else if i.code == MenuPrevious then MPREV else MOUT, [i.display, i.choice], None, [])
  }

  /** The input match behind the HALT. */
  function PostEntry(i: MenuItem): Entry {
    Entry(match i.code
          case MenuDown => i.target
          case MenuUp => UP
          case MenuNext => NEXT
          case MenuPrevious => PREVIOUS, i.choice)
  }

  function PreLines(items: seq<MenuItem>): (r: seq<Line>)
    ensures |r| == |items| && forall k :: 0 <= k < |r| ==> r[k] == PreLine(items[k])
  {
    seq(|items|, k requires 0 <= k < |items| => PreLine(items[k]))
  }

  function PostEntries(items: seq<MenuItem>): (r: seq<Entry>)
    ensures |r| == |items| && forall k :: 0 <= k < |r| ==> r[k] == PostEntry(items[k])
  {
    seq(|items|, k requires 0 <= k < |items| => PostEntry(items[k]))
  }

  const HALT_LINE: Line := Line(HALT, [], None, [])

  /** The code for a list of items: all of the menu, a HALT, all of the matches. */
  function MenuBytes(items: seq<MenuItem>): Bytes {
    ProgramBytes(PreLines(items)) + LineBytes(HALT_LINE) + EntriesBytes(PostEntries(items))
  }

  lemma {:induction false} EntriesSnoc(es: seq<Entry>, e: Entry)
    ensures EntriesBytes(es + [e]) == EntriesBytes(es) + LineBytes(EntryLine(e))
  {
    hide LineBytes;
    if es == [] {
      assert es + [e] == [e];
      assert [e][1..] == [];
    } else {
      assert (es + [e])[1..] == es[1..] + [e];
      EntriesSnoc(es[1..], e);
    }
  }

  lemma OneMore(items: seq<MenuItem>, i: nat)
    requires i < |items|
    ensures ProgramBytes(PreLines(items[..i + 1])) == ProgramBytes(PreLines(items[..i])) + LineBytes(PreLine(items[i]))
    ensures EntriesBytes(PostEntries(items[..i + 1])) ==
            EntriesBytes(PostEntries(items[..i])) + LineBytes(EntryLine(PostEntry(items[i])))
  {
    hide LineBytes;
    assert PreLines(items[..i + 1]) == PreLines(items[..i]) + [PreLine(items[i])];
    ProgramSnoc(PreLines(items[..i]), PreLine(items[i]));
    assert PostEntries(items[..i + 1]) == PostEntries(items[..i]) + [PostEntry(items[i])];
    EntriesSnoc(PostEntries(items[..i]), PostEntry(items[i]));
  }

  class MenuProcessor {
    var items: seq<MenuItem>

    constructor ()
      ensures items == []
    {
      items := [];
    }

    /** Refuses unknown instructions, and a target on anything but DOWN; a refused call changes nothing. */
    method Add(bop: Bytes, choice: Bytes, display: Bytes, target: Bytes) returns (ok: bool)
      modifies this
      ensures ok <==> bop in {DOWN_NAME, UP_NAME, NEXT_NAME, PREVIOUS_NAME} && (target != [] ==> bop == DOWN_NAME)
      ensures !ok ==> items == old(items)
      ensures ok ==>
        items == old(items) + [MenuItem(
          if bop == NEXT_NAME then MenuNext else if bop == PREVIOUS_NAME then MenuPrevious else if bop == UP_NAME then MenuUp
          else MenuDown, choice, display, target)]
    {
      var code := BatchCodeOf(bop);
      if code.None? {
        return false;
      }
      if |target| > 0 && code.value != MenuDown {
        return false;
      }
      items := items + [MenuItem(code.value, choice, display, target)];
      return true;
    }

    method ToLines() returns (b: Bytes)
      ensures b == MenuBytes(items)
    {
      hide LineBytes;
      var preLines: Bytes := [];
      var postLines: Bytes := [];
      var k := 0;
      assert PreLines(items[..0]) == [] && PostEntries(items[..0]) == [];
      while k < |items|
        invariant 0 <= k <= |items|
        invariant preLines == ProgramBytes(PreLines(items[..k]))
        invariant postLines == EntriesBytes(PostEntries(items[..k]))
      {
        OneMore(items, k);
        hide ProgramBytes, EntriesBytes;
        var v := items[k];
        match v.code {
          case MenuUp =>
            preLines := NewLine(preLines, MOUT, [v.display, v.choice], None, []);
            postLines := NewLine(postLines, INCMP, [UP, v.choice], None, []);
          case MenuNext =>
            preLines := NewLine(preLines, MNEXT, [v.display, v.choice], None, []);
            postLines := NewLine(postLines, INCMP, [NEXT, v.choice], None, []);
          case MenuPrevious =>
            preLines := NewLine(preLines, MPREV, [v.display, v.choice], None, []);
            postLines := NewLine(postLines, INCMP, [PREVIOUS, v.choice], None, []);
          case MenuDown =>
            preLines := NewLine(preLines, MOUT, [v.display, v.choice], None, []);
            postLines := NewLine(postLines, INCMP, [v.target, v.choice], None, []);
        }
        k := k + 1;
      }
      assert items[..k] == items;
      preLines := NewLine(preLines, HALT, [], None, []);
      return preLines + postLines;
    }
  }

  // ----- decoding -----

  predicate GoodItem(i: MenuItem) {
    GoodSym(i.choice) && GoodSym(i.display) && (i.code == MenuDown ==> GoodSym(i.target))
  }

  lemma {:induction false} EntriesAreLines(es: seq<Entry>, ls: seq<Line>)
    requires |ls| == |es| && forall k :: 0 <= k < |es| ==> ls[k] == EntryLine(es[k])
    ensures EntriesBytes(es) == ProgramBytes(ls)
  {
    hide LineBytes;
    if es != [] {
      EntriesAreLines(es[1..], ls[1..]);
    }
  }

  lemma {:induction false} ProgramAppend(p: seq<Line>, q: seq<Line>)
    ensures ProgramBytes(p + q) == ProgramBytes(p) + ProgramBytes(q)
  {
    hide LineBytes;
    if p == [] {
      assert p + q == q;
    } else {
      assert (p + q)[1..] == p[1..] + q;
      ProgramAppend(p[1..], q);
    }
  }

  /** The instructions a menu compiles to. */
  function MenuLines(items: seq<MenuItem>): (r: seq<Line>)
    ensures |r| == 2 * |items| + 1
    ensures forall k :: 0 <= k < |items| ==> r[k] == PreLine(items[k])
    ensures r[|items|] == HALT_LINE
    ensures forall k :: 0 <= k < |items| ==> r[|items| + 1 + k] == EntryLine(PostEntry(items[k]))
  {
    PreLines(items) + [HALT_LINE] + seq(|items|, k requires 0 <= k < |items| => EntryLine(PostEntry(items[k])))
  }

  /** Compiled menus decode to the menu, a HALT and the matches, in the order the items were added. */
  lemma MenuDecodes(items: seq<MenuItem>)
    requires forall i :: i in items ==> GoodItem(i)
    ensures MenuBytes(items) == ProgramBytes(MenuLines(items))
    ensures forall l :: l in MenuLines(items) ==> WellFormed(l)
    ensures Decode(MenuBytes(items)) == Decoded(Meanings(MenuLines(items)), Finished)
  {
    var post := seq(|items|, k requires 0 <= k < |items| => EntryLine(PostEntry(items[k])));
    MenuWellFormed(items);
    EntriesAreLines(PostEntries(items), post);
    ProgramAppend(PreLines(items) + [HALT_LINE], post);
    ProgramSnoc(PreLines(items), HALT_LINE);
    hide Decode, LineBytes, ProgramBytes, EntriesBytes, WellFormed;
    RoundTrip(MenuLines(items));
  }

  lemma MenuWellFormed(items: seq<MenuItem>)
    requires forall i :: i in items ==> GoodItem(i)
    ensures forall l :: l in MenuLines(items) ==> WellFormed(l)
  {
    var ls := MenuLines(items);
    forall k | 0 <= k < |ls| ensures WellFormed(ls[k]) {
      if k < |items| {
        assert GoodItem(items[k]);
      } else if k > |items| {
        assert GoodItem(items[k - |items| - 1]);
        assert ls[k] == ls[|items| + 1 + (k - |items| - 1)];
      }
    }
  }

  // ----- from the words of a batch to its instructions -----

  /** A line of a batch: its word and arguments. */
  datatype BatchLine = BatchLine(word: Bytes, choice: Bytes, display: Bytes, target: Bytes)

  /** A line that Add takes, with symbols that can be read back. */
  predicate GoodLine(l: BatchLine) {
    && l.word in {DOWN_NAME, UP_NAME, NEXT_NAME, PREVIOUS_NAME} && (l.target != [] ==> l.word == DOWN_NAME)
    && GoodSym(l.choice) && GoodSym(l.display) && (l.word == DOWN_NAME ==> GoodSym(l.target))
  }

  /** The item that Add makes of a line. */
  function ItemOf(l: BatchLine): MenuItem
    requires GoodLine(l)
  {
    MenuItem(BatchCodeOf(l.word).value, l.choice, l.display, l.target)
  }

  function ItemsOf(lines: seq<BatchLine>): (r: seq<MenuItem>)
    requires forall l :: l in lines ==> GoodLine(l)
    ensures |r| == |lines| && forall k :: 0 <= k < |r| ==> r[k] == ItemOf(lines[k])
  {
    seq(|lines|, k requires 0 <= k < |lines| => ItemOf(lines[k]))
  }

  /** What a line shows: DOWN and UP a menu entry, NEXT and PREVIOUS the settings of their browse lines. */
  function ShownBy(l: BatchLine): Instr {
    if l.word == [78, 69, 88, 84] then MNext(l.display, l.choice)
    else if l.word == [80, 82, 69, 86, 73, 79, 85, 83] then MPrev(l.display, l.choice)
    else MOut(l.display, l.choice)
  }

  /** What a line does with its choice: DOWN goes to its target, UP to `_`, NEXT to `>` and PREVIOUS to `<`. */
  function ChosenBy(l: BatchLine): Instr {
    InCmp(if l.word == [68, 79, 87, 78] then l.target
          else if l.word == [85, 80] then [95]
          else if l.word == [78, 69, 88, 84] then [62]
          else [60], l.choice)
  }

  lemma WordMeans(l: BatchLine)
    requires GoodLine(l)
    ensures GoodItem(ItemOf(l))
    ensures WellFormed(PreLine(ItemOf(l))) && Meaning(PreLine(ItemOf(l))) == ShownBy(l)
    ensures WellFormed(EntryLine(PostEntry(ItemOf(l)))) && Meaning(EntryLine(PostEntry(ItemOf(l)))) == ChosenBy(l)
  {
  }

  lemma HaltMeans()
    ensures WellFormed(HALT_LINE) && Meaning(HALT_LINE) == Halt
  {
  }

  /** The code for a batch decodes to what its lines show, a HALT, and what they do, by their words. */
  lemma BatchDecodes(lines: seq<BatchLine>)
    requires forall l :: l in lines ==> GoodLine(l)
    ensures var d, n := Decode(MenuBytes(ItemsOf(lines))), |lines|;
      && d.end == Finished && |d.calls| == 2 * n + 1
      && (forall k :: 0 <= k < n ==> d.calls[k] == ShownBy(lines[k]))
      && d.calls[n] == Halt
      && (forall k :: 0 <= k < n ==> d.calls[n + 1 + k] == ChosenBy(lines[k]))
  {
    hide Decode, MenuBytes, GoodLine, GoodItem, WellFormed, Meaning, Meanings, MenuLines, PreLine, PostEntry, EntryLine, ShownBy,
      ChosenBy, ItemOf;
    var items, n := ItemsOf(lines), |lines|;
    forall i | i in items ensures GoodItem(i) {
      var k :| 0 <= k < n && items[k] == i;
      WordMeans(lines[k]);
    }
    MenuDecodes(items);
    var ls := MenuLines(items);
    HaltMeans();
    forall k | 0 <= k < n ensures Meaning(ls[k]) == ShownBy(lines[k]) && Meaning(ls[n + 1 + k]) == ChosenBy(lines[k]) {
      WordMeans(lines[k]);
    }
  }
}
