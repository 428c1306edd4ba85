/** What joinSink computes (render/page.go): a list of items packed greedily into pages under two budgets. */
module Paging {
  import opened Common

  /** A page is the list of its items; in the flattened content they are separated by NUL. */
  function PageText(p: seq<Bytes>): Bytes {
    Join(p, NUL)
  }

  /** The items of a page as they are shown, one a line. A NUL inside an item ends a line as well. */
  function Chunk(p: seq<Bytes>): Bytes {
    Replace(Join(p, LF), NUL, LF)
  }

  /**
   The state of the packing: the closed pages, the open page and the budget of the open page; or the
   first item found not to fit.
   */
  datatype Packing =
    | Packed(full: seq<seq<Bytes>>, page: seq<Bytes>, net: u32)
    | Overflow(field: nat, full: seq<seq<Bytes>>)

  /** The open page takes `v` when the bytes counted so far and those of `v` stay below its budget. */
  predicate TakesItem(page: seq<Bytes>, v: Bytes, net: u32) {
    Wrap32(|PageText(page)| + |v|) <= Wrap32(net - 1)
  }

  /** An empty item that opens a page leaves no trace: the text buffer is still empty. */
  function PlaceOn(page: seq<Bytes>, v: Bytes): seq<Bytes> {
    if page == [] && v == [] then [] else page + [v]
  }

  /** The budget after closing a page; it shrinks when the first page is closed (a `uint16` counts pages). */
  function NextNet(full: seq<seq<Bytes>>, net: u32, previous: u32): u32 {
    if Wrap16(|full|) == 0 then Wrap32(net - (previous + 1)) else net
  }

  function PackItem(k: Packing, i: nat, v: Bytes, previous: u32): Packing {
    if k.Overflow? then k
    else if TakesItem(k.page, v, k.net) then k.(page := PlaceOn(k.page, v))
    else if k.page == [] then Overflow(i, k.full)
    else Packed(k.full + [k.page], PlaceOn([], v), NextNet(k.full, k.net, previous))
  }

  /** Packing the items in order, starting with budget `net`; `previous` is the size of the "previous" line. */
  function Pack(items: seq<Bytes>, net: u32, previous: u32): Packing {
    if items == [] then Packed([], [], net)
    else
      var last := |items| - 1;
      PackItem(Pack(items[..last], net, previous), last, items[last], previous)
  }

  function Pages(k: Packing): seq<seq<Bytes>>
    requires k.Packed?
  {
    k.full + if k.page == [] then [] else [k.page]
  }

  /** The closed pages as written: each followed by LF. */
  function ClosedText(full: seq<seq<Bytes>>): Bytes {
    if full == [] then [] else ClosedText(full[..|full| - 1]) + PageText(full[|full| - 1]) + [LF]
  }

  /** The cursor recorded after each closed page. */
  function ClosedCursors(full: seq<seq<Bytes>>): (r: seq<u32>)
    ensures |r| == |full|
  {
    if full == [] then [] else ClosedCursors(full[..|full| - 1]) + [Wrap32(|ClosedText(full)|)]
  }

  /** `strings.TrimRight(s, "\n")`. */
  function TrimLF(s: Bytes): Bytes {
    if s != [] && s[|s| - 1] == LF then TrimLF(s[..|s| - 1]) else s
  }

  /** The budget of the first page: one LF, and with several items the "next" line, set aside. */
  function FirstNet(remaining: u32, n: nat, next: u32): u32 {
    if n > 1 then Wrap32(remaining - 1 - (next + 1)) else Wrap32(remaining - 1)
  }

  /** The flattened content and the page count that joinSink returns for a packing. */
  function SunkText(k: Packing): Bytes
    requires k.Packed?
  {
    TrimLF(ClosedText(k.full) + PageText(k.page))
  }

  function SunkCount(k: Packing): u16
    requires k.Packed?
  {
    Wrap16(|Pages(k)|)
  }

  function Flatten(pages: seq<seq<Bytes>>): seq<Bytes> {
    if pages == [] then [] else Flatten(pages[..|pages| - 1]) + pages[|pages| - 1]
  }
}
