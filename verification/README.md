# go-vise: a verified model

go-vise is a small virtual machine for menus that must fit small screens. This project models its core
in Dafny and proves what its parts promise. Objects whose methods update their fields are classes here,
with one method for each of theirs; each class has a value view, each method states the view it leaves
behind, and the properties are lemmas about those values. Go strings and byte slices are sequences of
bytes, `uint16` and `uint32` arithmetic wraps where the code lets it wrap, and what panics in Go is an outcome of its
own. Template sources, code, titles, external functions and error texts are arbitrary functions of their arguments.

| files | part |
|---|---|
| `Common`, `Resources` | bytes, fixed-width numbers, joined strings; what the engine asks its resource for |
| `Paging`, `PagingProofs`, `PagingBudgets` | packing sink items into pages: round trip, budgets, optimality |
| `Template`, `Sizer`, `Menu`, `Page`, `PageProofs`, `PageExamples` | template sources, cursors, menus, rendering, and what every page shows and how large it is |
| `BrowseErrors`, `BrowseRuns`, `StaleSinks` | which pages are out of range, and what the sizer remembers |
| `PendingErrors` | error messages on a page, and how long they stay |
| `Split` | the other paginator, by bookmarks |
| `Codec`, `CodecProofs` | bytecode: writing, splitting, decoding, round trip |
| `Assembler`, `MenuCompiler`, `MenuRuns` | emission of code, compiled menus and their meaning when run |
| `State`, `Cache`, `CacheAccounting`, `Navigation` | flags, stack, scoped cache, moves on both |
| `Runner`, `Machine` | the machine: its steps on values, and the object that takes them |
| `Targets`, `Instructions` | what each target and each instruction does |
| `StackSync`, `Dispatch`, `Exceptions`, `ExternalFlags`, `ScopedLoading`, `Engine` | what holds over whole runs and sessions |
| `NodeMap` | enumeration of the simple paths of the node graph |
| `Storage` | storage keys and the memory store |

`dafny verify dfyconfig.toml` checks everything.

## Where code and documentation differ

The model follows the code.

- The decoder is documented to fail on any parse error (vm/debug.go:169). The error of an instruction's arguments is
  assigned to a variable that shadows the one tested (vm/debug.go:183-256), so decoding ends as if the code had ended
  there.
- Sink items are documented to be grouped up to the remaining output size (doc/texinfo/render.texi:100). An item is
  held against its page only when nothing is written on that page yet (render/page.go:251-298): the first item, and
  the one behind an empty item that opens a page (PagingBudgets.PackFailsIff). Any other item that opens a page is
  caught by the size check of that page alone (PageExamples.OversizeLineIsPacked). An empty item that opens a page
  loses its separator, and as last item leaves a cursor past the content.
- `Menu.Sizes` names the previous line before the next line (render/menu.go:157-189); its second value is the next
  line and its third the previous one.
- CROAK is documented to restart execution from the top (doc/texinfo/instructions.texi:77-83). It clears the cache and
  the code and leaves the stack alone (vm/runner.go:288-301), so the run terminates, or, while input is being read,
  goes on at the catch node, or fails where there is no node or that node is the current one (Exceptions.CroakEnds).
- Matches after the first are documented to be ignored until the next HALT (doc/texinfo/instructions.texi:93-99). They
  are, unless the first match has moved and a later INCMP has the input as its selector: that one moves again
  (vm/runner.go:384-407, Dispatch.FirstMatch and Dispatch.RepeatedSelectorMovesAgain).
- A pending error is put in front of the source of the template, which is then parsed (render/page.go:157-177), so an
  error is not just text: unmatched input such as `1{{` (PendingErrors.OneAndBraces) makes every page fail, and `1{{.sym}}` shows a mapped symbol
  (PendingErrors.UnmatchedInputBreaksPages, PendingErrors.MessageExpands). Nothing takes an error off the page again,
  only a later one replaces it (Engines.SessionKeepsError).
- `Vm.Render` answers a page out of range with a move to the catch node (vm/runner.go:503-511). The sizer refuses such
  an index first, with an error of its own (render/size.go:99-101), unless it keeps cursors of an earlier render, does
  not know the sink, or the counters have wrapped (BrowseErrors.PlainBrowseErrorIff). It does not know the sink when
  CATCH has moved, and so changed the cache and not the page, since the symbol was mapped
  (BrowseRuns.CatchReachesBrowseError); counters wrap at 65536 pages or 4 GiB, when the last line is lost
  (BrowseErrors.FreshBrowseErrorIff).
- `Page.Reset` is documented to remove the sink definition (render/page.go:202-204). The sizer keeps its own, and cuts
  a value that is later mapped under that name with a limit (StaleSinks.StaleSinkCuts).
- The first function pushes a cache level before it enters its node (engine/db.go:330-335); on a full stack entering
  panics, and the level stays (Engines.FirstOnFullStack).
- The length of a value is compared with its reserved size as a `uint16` (cache/cache.go:60-65), and with the capacity
  as a `uint32`, so long values pass by their remainder (CacheAccounting.AddAcceptsIff,
  CacheAccounting.LongValuePasses).
- `Rewind` assigns its error to a shadowing variable and never fails (vm/runner.go:95-112).
- LOADFAIL is cleared by no run, only by a reset of the engine (engine/db.go:627-650). So after one failed load every
  later instruction that fails leads to the catch node (vm/runner.go:201-214); an opcode that cannot be read, and
  input left over at no node or at the catch node, are errors still (Exceptions.StepErrorsIff).
- The reset of the engine calls `Restart` when the stack is empty, where it does nothing but fail
  (engine/db.go:640-650).
- A symbol longer than 255 bytes is an error to `writeSym`, but that error is not looked at for instructions with a
  single symbol (asm/asm.go:226-231).
- `paginate` decides by the remaining span whether a page is the last, but fills it with one byte more for each value
  (render/split.go:50-114), so values can be missing from the last page.
- Keys of translatable types lose their last four bytes when they look like a language (db/db.go:115-129), and keys
  without session cannot be decoded while a session is set (db/db.go:242-250).

## Model

| member | source | states |
|---|---|---|
| Common.SplitLines | render/page.go:220-244 | splitting on LF gives at least one item, none of them with an LF |
| Common.JoinSplit | render/page.go:220-244 | splitting at LF and joining with LF gives back every string |
| Common.ReplaceJoin | render/size.go:94-117 | replacing the separator of joined items re-joins the items with the other separator; separators inside items are replaced as well |
| Rendering.Page.JoinSink | render/page.go:251-298 | the two string builders, the running lengths and the appended cursors amount to the packing: text, page count and cursors of a success, and the item refused with the cursors appended so far |
| PagingProofs.PackShape | render/page.go:251-298 | no page is empty or opened by nothing |
| PagingProofs.NothingLost | render/page.go:251-298 | the pages hold the items in order; only empty items go missing, and one does exactly when an empty item opens a page |
| PagingProofs.ClosedAt | render/page.go:272-275 | each closed page stands where the pages before it end, and is followed by LF |
| PagingProofs.PageReads | render/size.go:94-117 | cutting at the cursor of page `i` and at the next LF gives its items, one a line, whatever bytes they hold |
| PagingProofs.RoundTrip | render/page.go:251-298 | every page of a successful packing reads back as its items; joining the pages gives back the content if and only if no empty item opens a page and no NUL is in the content (or it is empty) |
| PagingBudgets.PackFits | render/page.go:251-298 | every page is within its budget, or is a later page with a single item; counts and sizes stay within those of the items |
| PagingBudgets.PagesWithinBudget | render/page.go:251-298 | when no item exceeds a later page, every page is within its budget |
| PagingBudgets.PackFailsIff | render/page.go:251-298 | packing fails exactly when some item that is met with nothing written on the open page does not stay below the budget of that page, blank lines included |
| PagingBudgets.MetEmptyIff | render/page.go:251-298 | the first item is met so; a later one exactly when the item before it is empty and was met so itself, or did not fit |
| PagingBudgets.FirstItemDecides | render/page.go:251-298 | so among non-empty items only the first is checked; a later one that is too large is given a page all the same |
| PagingBudgets.NoShorterDivision | render/page.go:251-298 | greedy packing is optimal: no division of the items, in order, into pages within the same budgets has fewer pages |
| PagingBudgets.PackingIsDivision | render/page.go:251-298 | the packing is itself such a division when its items are non-empty and fit a later page |
| Sizing.Sizer.GetAt | render/size.go:94-117 | all values but the sink are copied; the sink becomes the page at the cursor; an index past the cursors is refused, a cursor past the content panics |
| PagingProofs.PageAtText | render/size.go:99-113 | cutting at the byte where a page of one or more bytes without LF begins, when LF or the end of the content follows it, gives that page with its separators turned into LF |
| Sizing.CheckIff | render/size.go:44-55 | a text below 4 GiB passes exactly when it is no longer than the limit, and makes up the limit with the room that is left; a longer one passes by its length modulo 2^32 |
| Sizing.Sizer.Set | render/size.go:34-41 | a symbol of size zero becomes the sink; the member sizes add up in `uint32` |
| Menus.Menu.ApplyPage | render/menu.go:242-276 | browse lines are added for the pages before and after, and an index past the page count is refused |
| Menus.Menu.Render | render/menu.go:206-239 | the text is one line an item, with the browse lines of the page; the items survive unless the menu is disposed of |
| Menus.MenuShows | render/menu.go:206-239 | the text is the lines of the items, `selector`, separator and title of each, joined by LF; a page out of range and a title that does not resolve are told instead |
| Menus.BrowseLines | render/menu.go:242-276 | the browse lines behind the items: next on all pages but the last, previous on all but the first, next first where there are both; which were shown is remembered |
| Menus.MenuAfterwards | render/menu.go:206-239 | afterwards the items are there again, or gone if the menu is disposed of; the settings stay |
| Menus.Menu.Sizes | render/menu.go:167-189 | the measured sizes are those of the next line and the previous line alone, with the default separator and untranslated titles |
| Menus.ScratchNext | render/menu.go:167-189 | the menu that Sizes renders first among two pages shows the next line and nothing else |
| Menus.ScratchPrevious | render/menu.go:167-189 | rendered last among two pages it shows the previous line and nothing else |
| Menus.Menu.Reset | render/menu.go:290-304 | the browse flags are as configured again and the items are gone |
| Rendering.Page.Map | render/page.go:95-119 | a symbol with a reserved size is mapped; a second symbol without limit is refused and nothing changes |
| Instructions.Maps | render/page.go:95-119 | exactly when mapping succeeds, and what it leaves: the value, and for a symbol without limit the sink of page and sizer |
| Rendering.Page.Split | render/page.go:220-244 | for every order in which the map yields the values: all without a limit are emptied, and the sink is one of them, with its lines as items; with at most one there is only one split |
| Rendering.OneSplit | render/page.go:220-244 | with at most one symbol without a limit the order does not matter |
| Templates.LiteralIff | render/page.go:157-182 | a source is literal text exactly when there is no `{{` in it |
| Templates.CompileLine | render/page.go:157-166 | a source followed by a line and another source compiles to its pieces, LF, and those of the other |
| PageProofs.ErrorInFront | render/page.go:152-188 | a pending error is parsed with the template: one that is a source by itself comes first, as it expands, on a line in front of what would have been rendered, or alone if there is no template text; the page fails if either does |
| PageProofs.LiteralError | render/page.go:152-188 | an error without `{{` comes first as it is, and failures are the same with and without it |
| PendingErrors.MessageExpands | render/page.go:157-188 | an error around a placeholder `{{.key}}` shows the value mapped under the key, and fails when there is none |
| PendingErrors.BrokenPage | render/page.go:157-188 | with an error that ends in `{{'`, the first `{{` in it, no page can be rendered, whatever its symbol, values and index |
| PendingErrors.UnmatchedInputBreaksPages | vm/runner.go:240-254 | input that ends in `{{` and is not matched leads to such an error: the machine moves to the catch node, where no page can be rendered |
| PendingErrors.RunKeepsError | vm/runner.go:119-198 | no run takes an error off the page: it is the one from before or one raised since |
| Engines.SessionKeepsError | engine/db.go:323-363 | nor does anything else in a session, pages shown and resets included |
| PageProofs.PageTemplate | render/page.go:152-188 | the template text of page `i` is the template with the items of the page, one a line, at the sink, and takes their bytes more than the page without its sink |
| Rendering.Page.ApplyMenuSink | render/page.go:300-307 | the text of the menu becomes the sink, and the menu forgets its items |
| PageProofs.MenuStaged | render/page.go:317-335 | a menu as sink: its lines become the content of `_menu`, for which there is a placeholder behind the template, and it forgets its items; beside a mapped sink it is refused |
| Rendering.Page.Prepare | render/page.go:310-381 | the values with the flattened sink in them, and the page with its cursors and page count |
| Rendering.Page.RenderValues | render/page.go:384-413 | template, menu and size check in this order |
| PageProofs.MenuUnderTemplate | render/page.go:384-413 | a page is its template text, and under it, behind LF, what the menu shows, if anything; failures come in this order, the limit last, and it is exceeded exactly when that text is longer |
| PageExamples.MenuIsBelow | render/page.go:393-404 | template `Hi` and item `1`, `foo`: `Hi`, LF, `1:foo` |
| Rendering.Page.Render | render/page.go:191-200 | preparing and rendering, with the page as both leave it |
| Rendering.Page.Reset | render/page.go:205-215 | mapping, sink, extra template and cursors are gone |
| Instructions.PageReset | render/page.go:205-215 | field by field: nothing mapped, no sink, no extra template, no cursors; error and sizer settings stay |
| Rendering.JoinTakes | render/page.go:283-287 | an item that joins the open page extends text, lengths and count as the packing does |
| Rendering.JoinCloses | render/page.go:268-287 | an item that does not fit closes the page: LF, a cursor, one page more and the smaller budget |
| PageProofs.ExecuteFilled | render/page.go:152-188 | filling a symbol that was empty adds its content at each of its placeholders |
| PageProofs.MenuPage | render/menu.go:206-276 | a paged menu shows its items and the browse lines of the page, and takes their bytes |
| PageProofs.BaseIs | render/page.go:339-345 | the page rendered without its sink is the template text and the menu items |
| PageProofs.PageSize | render/page.go:384-413 | the text of page `i` - template with its items, menu items, browse lines - and its size: what the page takes without sink, its items, and the browse lines |
| PageProofs.PageRendersIff | render/page.go:384-413 | page `i` renders, as that text, exactly when its items and browse lines fit what the page leaves free; otherwise the limit is reported. The source, a pending error included, is text and placeholders |
| PageProofs.ReservedAre | render/page.go:352-359 | reserved are the bytes of each available browse line: selector, a colon and label; nothing without a menu |
| PageProofs.BudgetCoversBrowse | render/page.go:347-366 | the reservation covers the browse lines on every page |
| PageProofs.EveryPageRenders | render/page.go:339-413 | with items that fit a later page and lines no longer than measured, every counted page renders as its text, within the output size |
| PageProofs.FittingItemsPack | render/page.go:251-298 | non-empty items that fit a later page are packed, and so is a single item that fits the page |
| PageProofs.RenderWithinLimit | render/page.go:191-413 | the same from the mapped page on, for mapped sinks and for menus used as sink, and every split of the values: preparing succeeds exactly when packing does, and then every page renders as its text within the output size |
| PageExamples.ReservationCanBeMet | render/page.go:310-381 | these conditions can be met: three lines on three pages, with a next and a previous line reserved |
| PageProofs.PastTheLastPage | render/size.go:94-117 | the page past the last is refused, but panics exactly when the last item is empty and opened a page |
| PageExamples.LostEmptyLine | render/page.go:265-288 | an empty line that opens a page is lost: four lines of which pages hold three |
| PageExamples.LineAfterEmptyIsRefused | render/page.go:265-288 | the line behind such a one is checked against its page: here it is too long, and packing fails |
| PageExamples.OversizeLineIsPacked | render/page.go:265-288 | a line behind one that fits is packed although it is longer than its page |
| BrowseErrors.BrowseErrorIff | render/page.go:191-413 | exactly when a page is a browse error: it is prepared, its index is not below the pages counted in the menu, and its template renders all the same |
| BrowseErrors.PlainBrowseErrorIff | render/size.go:94-117 | for templates of text and placeholders: exactly when the sizer still has something to cut at that index, by its cursors, old ones included, and the sink it knows |
| BrowseErrors.FreshBrowseErrorIff | render/page.go:251-298 | without old cursors and with the sink known to the sizer: exactly when the last item is lost and the number of pages (65536) or the length of the content (2^32) has wrapped |
| BrowseErrors.MappedPage | render/page.go:95-119 | whatever symbols are mapped on a reset page, at most one has no limit and the sizer has it as its sink, by the sizes that the symbols are mapped with |
| BrowseErrors.NoBrowseError | render/page.go:191-200 | so below these counters such a page is never a browse error, for any index and any bytes |
| BrowseErrors.MappedPageBrowseErrorIff | render/page.go:95-119 | a page mapped after a reset and rendered with the sizes it was mapped with: the wrapped counters are its only browse errors |
| BrowseRuns.CatchReachesBrowseError | vm/runner.go:265-285 | a run that reaches another: a CATCH leaves the page and not the cache level behind, the symbol mapped with a limit is loaded without one, and the page turned to is a browse error |
| PageExamples.SecondRenderIsBrowseError | render/menu.go:242-251 | a page rendered twice without a reset does report one: it keeps the cursors of the first time |
| StaleSinks.SinklessText | render/size.go:94-117 | a page without a sink shows its template with the mapped values, but a value under the name the sizer remembers as sink is cut to its first page |
| StaleSinks.CutIsWholeIff | render/size.go:94-117 | the values are shown whole exactly when that name is not among them, or its value has no NUL, and no LF unless it starts with one |
| StaleSinks.StaleSinkCuts | render/page.go:205-215 | a symbol mapped as sink, and after a reset with a limit, shows only its first line |
| Splitting.Bookmark | render/split.go:8-17 | the bookmarks are the prefix sums of the lengths, one byte more for each value |
| Splitting.BookmarksAscend | render/split.go:8-17 | bookmarks are the lengths of the values before them, a byte more for each, from 0 and strictly ascending |
| Splitting.PageRoom | render/split.go:78-92 | the room on a page and whether it is taken for the last |
| Splitting.FillPage | render/split.go:94-113 | the values one page takes, or that its first one does not fit; every index is in range |
| Splitting.Paginate | render/split.go:56-124 | terminates with the pages of the division, the end mark on the last; refuses no bookmarks and too small pages |
| Splitting.DivideIs | render/split.go:76-119 | pages are consecutive, non-empty and filled as far as their own room allows; only the last is taken for the last |
| Splitting.DivideMeans | render/split.go:76-119 | in numbers: the capacity less the previous line on all pages but the first and the next line on all but the last; the last page is the one whose span is within that; values are taken, a byte more each, while they fit |
| Splitting.AllPlacedIff | render/split.go:50-124 | every value is on a page exactly when the last page also has room for one byte more a value |
| Splitting.ValuesAreLost | render/split.go:50-124 | five values of which two pages hold four |
| Codec.NewLine | vm/vm.go:9-27 | appends opcode, prefixed strings, prefixed number and flags, prefixes as `uint8` |
| Codec.IntSplitLoop | vm/vm.go:181-200 | the right-aligning loop reads the big-endian number, and 0 when the prefix exceeds four |
| Codec.LeadingZeros | vm/vm.go:181-200 | leading zero bytes do not change a number |
| CodecProofs.OpcodeOf | vm/opcodes.go:8-24 | the opcode that each instruction is written with, from 1 for CATCH to 12 for MPREV |
| CodecProofs.OpcodesAre | vm/vm.go:220-230 | two bytes are an opcode exactly when they are a number up to 12 |
| CodecProofs.SplitPrefixed | vm/vm.go:203-217 | a symbol of 1 to 254 bytes is split off whole |
| CodecProofs.SplitNumber | vm/vm.go:181-200 | a number of at most four bytes is split off with its value |
| CodecProofs.ReadArguments | vm/vm.go:112-178 | the arguments of a well-formed line are read back and exactly used up |
| Codec.ParseAll | vm/debug.go:170-267 | the decoding loop delivers the calls of the recursive decoder, and ends as it does |
| CodecProofs.Build | vm/vm.go:9-27 | a program built line by line is the concatenation of its lines |
| CodecProofs.DecodePrefix | vm/debug.go:170-267 | a program in front of other code decodes to its instructions, followed by those of that code |
| CodecProofs.RoundTrip | vm/debug.go:170-267 | a non-empty program decodes to its instructions and every byte is consumed |
| CodecProofs.UniquelyDecodable | vm/vm.go:9-27 | equal code means equal instructions |
| CodecProofs.EmptyProgram | vm/debug.go:174-178 | the empty program is an error |
| CodecProofs.ArgumentErrorsAreSwallowed | vm/debug.go:183-261 | on all code the decoder agrees with one that stops at errors in arguments, except that it reports them as a good end |
| CodecProofs.CutInstructionIsDropped | vm/debug.go:183-261 | a program with a last instruction cut off after its opcode decodes without an error, that instruction missing |
| Assembler.NumSizeIsLeast | asm/asm.go:286-289 | `numSize` is the least number of bytes that holds the number |
| Assembler.Buffer.WriteSize | asm/asm.go:307-320 | writes the length and the bytes of a number; every `uint32` fits |
| Assembler.Buffer.WriteSym | asm/asm.go:298-305 | writes length and symbol; more than 255 bytes is an error that writes nothing |
| Assembler.NumberReads | asm/asm.go:307-320 | the machine splits the written number off with its value, whatever follows |
| Assembler.ParseTwoSym | asm/asm.go:46-77 | two symbols, a number as its digits, a leading `*` last; or a nil dereference, or an error |
| Assembler.ParseSig | asm/asm.go:99-121 | symbol, number and flag |
| Assembler.ParseSized | asm/asm.go:123-139 | symbol and number |
| Assembler.ParseFlagged | asm/asm.go:141-158 | number and flag |
| Assembler.ParseOne | asm/asm.go:160-232 | a line is written whole or not at all |
| Assembler.LineEmitted | asm/asm.go:160-232 | a documented line is emitted as the well-formed line with the meaning asked for |
| Assembler.AssembledProgramDecodes | asm/asm.go:160-232 | a documented program assembles without an error and decodes to the instructions its lines ask for |
| Assembler.LoneSymbolDropped | asm/asm.go:226-231 | a single symbol is dropped without an error exactly when it is longer than 255 bytes |
| MenuCompiler.MenuProcessor.Add | asm/menu.go:52-68 | unknown words, and targets on anything but DOWN, are refused and change nothing; DOWN, UP, NEXT and PREVIOUS are added as what they say |
| MenuCompiler.MenuProcessor.ToLines | asm/menu.go:71-94 | all menu lines, a HALT, all input matches, in the order added |
| MenuCompiler.MenuDecodes | asm/menu.go:71-94 | the code decodes to exactly these instructions |
| MenuCompiler.BatchDecodes | asm/menu.go:52-94 | from the words of a batch: NEXT decodes to MNEXT and `>`, PREVIOUS to MPREV and `<`, UP to MOUT and `_`, DOWN to MOUT and its target, all of the menu, a HALT, all of the matches |
| MenuRuns.MenuHalts | vm/runner.go:434-491 | run up to its HALT, a compiled menu is on the menu of the machine, which waits with the matches left to do |
| MenuRuns.MenuWaits | vm/runner.go:434-444 | where it waits, node, page and cache are as before |
| MenuRuns.EffectIs | vm/input.go:135-187 | the targets written for DOWN, UP, NEXT and PREVIOUS enter, leave, and turn the page; there is none before the first |
| MenuRuns.MenuMeans | vm/runner.go:373-431 | resumed with an input, a compiled menu applies the effect of the chosen item once and of no other, if no later item repeats its choice; no choice, and PREVIOUS on the first page, end in a move to the catch node |
| MenuRuns.MenuEndToEnd | vm/runner.go:119-198 | the compiled menu from its first byte: it shows its items and waits; given an input and resumed it is where the chosen item leads, or where it was and about to move to the catch node |
| Navigation.Rewind | vm/runner.go:95-112 | goes up and pops to the top node; never fails, because its error is shadowed |
| Navigation.ApplyTarget | vm/input.go:135-187 | moves stack and cache together; a failed move changes nothing |
| Targets.UpLeads | vm/input.go:135-187 | `_`: the node above on its first page, one cache level less; refused without a node |
| Targets.NextLeads | vm/input.go:135-187 | `>`: the next page, in `uint16`, and nothing else |
| Targets.PreviousLeads | vm/input.go:135-187 | `<`: the page before; on the first page nothing changes |
| Targets.TopLeads | vm/input.go:135-187 | `^`: the top node, and only its cache level and those below it |
| Targets.SameLeads | vm/input.go:135-187 | `.`: the same node and page |
| Targets.NameLeads | vm/input.go:135-187 | a name: the node, on its first page, with an empty cache level of its own; a panic from 129 nodes on and from the node itself |
| Targets.OtherRefused | vm/input.go:135-187 | anything else is refused |
| Targets.TargetsAre | vm/input.go:13-19 | which byte strings are targets |
| Navigation.CheckTarget | vm/input.go:111-132 | whether a lateral move is possible; for `_` it asks for the top node |
| Machine.Vm.Refresh | vm/runner.go:520-555 | one external call: its content and flags, LOADFAIL on failure |
| Machine.Vm.RunCatch | vm/runner.go:265-285 | CATCH, on every flag, target and code |
| Instructions.CatchMeans | vm/runner.go:265-285 | for every flag, mode, target and code: unlike the mode it goes on unchanged; like it, it moves stack and cache alone and goes on with exactly the code of the node; bad targets and missing code are errors, a missing flag a panic |
| Instructions.CatchOuchMeans | vm/runner.go:265-285 | `CATCH ouch 8 0` enters `ouch` with flag 8 clear, `CATCH ouch 8 1` with flag 8 set, and neither does otherwise |
| Machine.Vm.RunCroak | vm/runner.go:288-301 | CROAK: the cache is reset, the stack is not |
| Instructions.CroakPasses | vm/runner.go:288-301 | with the flag unlike the mode it goes on unchanged; like it, page and cache are reset and no code is left |
| Machine.Vm.RunLoad | vm/runner.go:304-327 | LOAD: a value already there is not loaded again |
| Instructions.LoadMeans | vm/runner.go:304-327 | a symbol that a frame has is passed over without a call; else one call, and its content goes into the top frame with the limit as a `uint16`, or is refused with an error |
| Machine.Vm.RunReload | vm/runner.go:330-349 | RELOAD: the refusal of the cache is ignored |
| Instructions.ReloadMeans | vm/runner.go:330-349 | one call, the value replaced if the cache takes it, and the symbol mapped with the value that is there then |
| Machine.Vm.RunMap | vm/runner.go:258-262 | MAP: a parse error is overwritten |
| Instructions.MapMeans | vm/runner.go:258-262 | the symbol is mapped, or it is an error |
| Instructions.MapOfNothing | vm/runner.go:258-262 | a MAP that cannot be read maps the empty symbol |
| Instructions.BadArguments | vm/runner.go:122-196 | every other instruction whose arguments cannot be read is an error that changes nothing, or a panic |
| Machine.Vm.RunMove | vm/runner.go:352-369 | MOVE |
| Instructions.MoveMeans | vm/runner.go:352-369 | it moves, resets page and menu, and goes on with the rest of the code and behind it that of the node; bad targets and missing code are errors |
| Machine.Vm.RunInCmp | vm/runner.go:373-431 | INCMP, on all flags and inputs |
| Instructions.InCmpMeans | vm/runner.go:373-431 | on every flag and input: passed over behind a match while reading, the wildcard before any match only, a match moves with a reset, no previous page leaves both flags set |
| Instructions.MSinkMeans | vm/runner.go:447-453 | MSINK makes the menu the sink and gives it a page |
| Machine.Vm.RunErrCheck | vm/runner.go:201-214 | errors reach the client unless a load has failed |
| Machine.Vm.RunDeadCheck | vm/runner.go:223-255 | without code the machine terminates, or moves unmatched input to the catch node |
| Instructions.NoCodeLeft | vm/runner.go:223-255 | every case of a step that leaves no code |
| Machine.Vm.ExecuteStep | vm/runner.go:122-196 | one turn of the loop, on the objects, is one step on values |
| Instructions.PreludeMeans | vm/runner.go:123-145 | ahead of an instruction LANG and WAIT are cleared and DIRTY is set; where WAIT was set, INMATCH is cleared and the page reset; no other flag changes |
| Instructions.MachineReset | vm/runner.go:81-92 | the reset of the machine: that of the page, and a new menu with the separator of the machine |
| Instructions.NoopFails | vm/runner.go:152-180 | opcode 0 is an error |
| Machine.Vm.Execute | vm/runner.go:119-198 | any number of turns is as many steps of the run |
| Machine.Vm.CatchBrowse | vm/runner.go:503-511 | the branch of Render for a browse error: reset, then a run of a move to the catch node |
| ExternalFlags.WrittenFlags | vm/runner.go:536-547 | exactly the writeable flags of a list are written |
| ExternalFlags.RefreshFlags | vm/runner.go:520-555 | after a refresh flags 0 to 5 are as before, but for LOADFAIL on failure; each other flag is set if asked for, else cleared if asked for, else kept; it panics exactly when a flag does not exist |
| ExternalFlags.RefreshAnswers | vm/runner.go:520-555 | no function and a function that fails are errors, else the content comes; it is one call more |
| Exceptions.CroakEnds | vm/runner.go:288-301 | a CROAK that fires leaves the stack as it is and one cache frame, level with the stack only if there was no node; the run terminates, or, while input is read, goes on with a move to the catch node, or fails at no node or the catch node |
| Exceptions.CroakStaysDown | vm/runner.go:288-301 | so two nodes down CROAK does not get to the top: code, machine and outcome |
| Exceptions.RunKeepsFailure | vm/runner.go:119-198 | no run clears LOADFAIL |
| Exceptions.StepErrorsIff | vm/runner.go:122-255 | a step is an error exactly when the opcode cannot be read, or the instruction fails and no load has failed, or input is left without code at no node or at the catch node |
| Exceptions.FailureIsCaught | vm/runner.go:201-214 | once a load has failed, an instruction that fails leads to the catch node, with its message on the page |
| Exceptions.BadCodeIsNotCaught | vm/runner.go:147-150 | but code without an opcode stays an error |
| StackSync.OpSync | vm/runner.go:141-180 | every instruction keeps the cache between one level and one above the stack; only a CROAK takes it off level |
| StackSync.RunSync | vm/runner.go:119-198 | the same for every run, ended or not |
| StackSync.RunStops | vm/runner.go:119-198 | a return without error has TERMINATE set and no code, or WAIT set and exactly the code behind the HALT it came to; entered with TERMINATE set it changes nothing |
| Engines.ShownOnce | vm/runner.go:494-518 | a page is shown once for a run: with DIRTY clear nothing changes, else it is cleared and the page rendered; a browse error runs the move to the catch node from a reset machine |
| Engines.EventSync | engine/db.go:323-363 | each event keeps the cache between one level and one above the stack, exactly but for the first function called on a full stack with the cache level |
| Engines.EverySessionState | engine/db.go:323-363 | in every state of a session - runs, inputs, renders, resets, first function - the cache has 1 to depth + 1 levels unless the first function was called on a full stack, and depth + 1 while no CROAK has fired either |
| Engines.FirstOnFullStack | engine/db.go:330-335 | that call panics with the cache pushed, and leaves depth + 2 levels |
| Dispatch.EntryStep | vm/runner.go:373-431 | an INCMP as written by the compiler is read and executed |
| Dispatch.FirstMatch | vm/runner.go:373-431 | the first matching entry is applied once; those before and after it are consumed without a move, provided that, if it moves, no entry behind it has the input as its selector |
| Dispatch.DispatchOnResume | vm/runner.go:132-198 | the same from WAIT on, for every list with that one proviso; without a match the list is consumed and reading goes on |
| Dispatch.RepeatedSelectorMovesAgain | vm/runner.go:373-431 | the converse: when the first match has moved, the next entry with the input as its selector is applied as well, to the machine where the first has arrived |
| Dispatch.TwoEntriesMoveTwice | vm/runner.go:373-431 | two entries with the same selector, run on that input, end one node below the other |
| Dispatch.UnmatchedIsCaught | vm/runner.go:223-255 | unmatched input with no code left becomes a move to the catch node |
| Dispatch.CatchMoves | vm/runner.go:352-369 | that move enters the catch node with a new cache level and its code |
| ScopedLoading.OpAbove | vm/runner.go:141-180 | below a node, no instruction but CROAK and a RELOAD of its symbols touches its cache |
| ScopedLoading.OpDeepens | vm/input.go:167-185 | the one way down pushes one empty cache level |
| ScopedLoading.ScopedLoadingIsBracketed | vm/input.go:135-187 | a CROAK-free segment from a node and back to it, staying below, reloading no outer symbol, gives back frames and use, and the sizes but for the names it loads; the sizes are the same exactly when no such name had a size before |
| ScopedLoading.StaleSizeIsLost | cache/cache.go:156-205 | a size that a reset has left behind is lost so, from calls on a new cache: frames come back, the size does not |
| Caching.Cache.Add | cache/cache.go:56-88 | a value is added to the top frame with its limit, or refused with the reason and nothing changed |
| Caching.AddedIsThere | cache/cache.go:56-88 | a value that is added is there with its limit, and is the last one; nothing else has changed |
| Caching.Cache.Update | cache/cache.go:102-131 | a value is replaced where it is, or refused and nothing changed; empty values are always refused |
| Caching.UpdatedIsThere | cache/cache.go:102-131 | an accepted update is the new value where the old one was; every other symbol, all sizes and the last value stay |
| Caching.Cache.Get | cache/cache.go:140-153 | the value in the lowest frame that has the symbol |
| Caching.Cache.FindFrame | cache/cache.go:240-249 | the first frame with the symbol |
| CacheAccounting.CapacityIff | cache/cache.go:228-237 | the answer is not 0 exactly when the length is not a multiple of 2^32 and the sum modulo 2^32 is within the capacity, if there is one; for sums below 2^32 exactly when use and length fit the capacity |
| Caching.Cache.Pop | cache/cache.go:182-205 | the top frame, its bytes and its sizes go; the last frame is replaced by an empty one |
| Caching.PoppedIsGone | cache/cache.go:182-205 | the symbols and sizes of the top frame are gone, the other frames and sizes stay |
| Caching.Cache.Reset | cache/cache.go:156-169 | all frames but the first go; their sizes stay |
| Caching.ResetKeepsFirst | cache/cache.go:156-169 | only what the first frame has is there; sizes and last value stay |
| Caching.Cache.Push | cache/cache.go:172-179 | one empty frame more |
| Caching.PushedSeesAll | cache/cache.go:172-179 | a new level sees every value that was there |
| Caching.FrameTotalRemove | cache/cache.go:191-197 | the bytes of a frame do not depend on the order in which it is traversed |
| CacheAccounting.StepKeepsAccount | cache/cache.go:56-205 | every operation keeps the account |
| CacheAccounting.AddAcceptsIff | cache/cache.go:56-88 | a value is added exactly when its length modulo 65536 is within the limit, the name is in no frame, and it is empty or goes into the capacity |
| CacheAccounting.UpdateAcceptsIff | cache/cache.go:102-131 | a value is replaced exactly when the name is there, the length modulo 65536 is within its size, and it goes into the capacity without the old value |
| CacheAccounting.EveryReachableCache | cache/cache.go:56-249 | after any calls the counter is the total length of all values modulo 2^32, no symbol is in two frames, and every value passes the check against its size; with values under 64 KiB no value is longer than its size, and with a capacity the counter is exact and within it |
| CacheAccounting.LongValuePasses | cache/cache.go:60-65 | a value of 65536 bytes is taken with a limit of one byte |
| States.FieldUpdate | state/state.go:106-139 | writing a bit of the byte field changes that flag alone |
| States.State.SetFlag | state/state.go:106-119 | sets one flag and reports whether it changed |
| States.State.ResetFlag | state/state.go:126-139 | clears one flag and reports whether it changed |
| States.State.GetFlag | state/flag.go:37-42 | the flag |
| States.State.GetIndex | state/state.go:174-203 | true exactly when the field and the bytes scanned share a set bit below both sizes; of more than 256 bytes the length in `uint8` decides how many are scanned |
| States.ToByteSize | state/state.go:49-58 | the least number of bytes for up to 2040 bits |
| States.State.Down | state/state.go:287-305 | one node deeper, first page |
| States.MovesAreCounted | state/state.go:228-330 | each move is counted, and remembered by its kind |
| States.State.Up | state/state.go:314-330 | one node up, or an error on the empty stack |
| States.State.Previous | state/state.go:244-257 | one page back, or the error of the first page |
| States.State.Restart | state/state.go:376-388 | top node only, engine flags cleared; an error without a node |
| States.RestartMeans | state/state.go:376-388 | field by field: top node, first page, no moves, empty input, the eight engine flags cleared, client flags kept |
| Engines.Engine.SetCode | engine/db.go:394-409 | the remaining code is kept; without code a pending value becomes the exit value |
| Engines.Engine.Reset | engine/db.go:627-650 | leaves every node and pops a level for each; an error without a node |
| Engines.ResetAny | engine/db.go:627-650 | for every cache and stack: the stack is empty, a frame has gone for each node, and one more with the root, the last one being replaced by an empty one; the bytes left are counted, client flags keep their values |
| Engines.ResetSession | engine/db.go:627-650 | so a level cache is left with its first frame, or an empty one with the root reset; below that level, after a CROAK, the first frame goes as well |
| NodeMaps.EdgesAre | debug/parse.go:44-84 | behind the connections a node had come the nodes its instructions mention, each once, by first mention: MOVE, INCMP and CATCH mention a node, but none of `<`, `>`, `^`, `_`, `.` |
| NodeMaps.BarLeadsToOuch | debug/parse.go:72-84 | a node with `CATCH ouch 8 0` and `HALT` has the paths `bar/ouch` and `bar` |
| NodeMaps.Node.Connect | debug/node.go:24-35 | a peer is indexed once and connected once |
| NodeMaps.Node.Next | debug/node.go:41-48 | the first connection goes, and comes as a node without connections |
| NodeMaps.Node.Parse | debug/parse.go:21-84 | the connections are those of the decoded instructions, in order |
| NodeMaps.NodeMap.ProcessNode | debug/map.go:39-70 | adds the lines of the walk from the node and restores the stack, or ends as the walk does |
| NodeMaps.NodeMap.Run | debug/map.go:25-37 | the lines of the walk from the root |
| NodeMaps.EnumeratesSimplePaths | debug/map.go:39-70 | a run that ends well finds every simple path from the root through nodes with code, once, in depth-first post-order, and leaves the stack empty |
| NodeMaps.EndsWellIff | debug/map.go:25-70 | it ends well exactly when every simple path fits the stack and ends in a node whose code decodes |
| NodeMaps.SmallMapsEndWell | state/state.go:287-305 | at most 129 nodes with decodable code always end well |
| NodeMaps.LinesAreDistinct | debug/map.go:67 | the lines are distinct when names have no slash |
| Storage.DbBase.SetLock | db/db.go:206-221 | locks and unlocks data types until sealed |
| Storage.LocksAre | db/db.go:206-227 | locking and unlocking a type decides that type alone; type 0 locks bytecode, menus, templates and static loads for good; a sealed store ignores both |
| Storage.DbBase.Safe | db/db.go:177-179 | safe means that none of the four types of the machine can be written |
| Storage.DecodeKeyIff | db/db.go:285-298 | decoding gives back the key exactly when the stored key is not empty, shows no language suffix, and has the session its type asks for |
| Storage.TranslationDecodes | db/db.go:105-129 | a translated key decodes exactly when it has more than two bytes |
| Storage.CollisionIff | db/db.go:197-239 | keys of two sessions collide exactly when one session, its dot and part of a key make up the other session, or a key without session spells out session and key of the other |
| Storage.SessionsIsolate | db/db.go:197-239 | without dots in sessions they never collide |
| Storage.TranslationCollisionIff | db/db.go:105-112 | a translation and a default key share a slot exactly when the default key is the translated key with underscore and code |
| Storage.TranslationsCollideIff | db/db.go:105-112 | two translations share a slot exactly when they are the same, or the longer code ends in underscore and the shorter code and the rest of it is in the key |
| Storage.HexInjective | db/mem/mem.go:55-64 | hexadecimal keys are injective |
| Storage.HexDigits | db/mem/mem.go:55-64 | `00`, `0a`, `9f`, `ff` |
| Storage.SlotKeyInjective | db/db.go:255-282 | keys are injective in data type, session, key and language, for dot-free sessions, codes of three letters and keys that do not end in what would be a code |
| Storage.MemDb.Put | db/mem/mem.go:90-107 | replaces the value under the key, or is refused and changes nothing |
| Storage.DataIsIsolated | db/mem/mem.go:67-107 | after any operations on a new store a Get returns the value last put under the same data type, session, key and language, else the one put without language, and no other; types with sessions ask for dot-free sessions, translatable types for codes of three letters and keys that do not end in one |
| Storage.SessionInFront | db/db.go:232-239 | state, user data and every type above 8: the key is type, session, dot and key |
| Storage.SessionPlaysNoPart | db/db.go:232-239 | bytecode, menus, templates and static loads: the key is type and key, in every session |
| Storage.LanguagePlaysPart | db/db.go:105-112 | menus, templates and static loads have a translated key, with underscore and code; the others have none |
| Storage.SessionsApart | db/db.go:255-282 | above type 8 the keys of two dot-free sessions differ, whatever the keys and languages |
| Storage.PutStaysInSession | db/mem/mem.go:67-107 | above type 8 what one session puts changes no Get of another |
| Storage.BobFindsNothing | db/mem/mem.go:67-107 | `alice` puts user data and finds it, `bob` finds nothing |

## Left out

- Running.Run: cut off after a number of steps, because a program can move to its own node forever; every theorem about runs holds for every such number.
- Machine.Vm.Execute: the same cut-off, as a bound on the turns of the loop.
- Machine.Vm.CatchBrowse: of the render method of the machine this is the move to the catch node; the whole method, with the second render, is on values (Engines.PageShown).
- PageProofs.RenderWithinLimit: asks for one sink placeholder, items that fit a later page and browse lines no longer than measured; PageProofs.PageRendersIff and PagingBudgets.PackFailsIff say what happens otherwise, and PendingErrors what a pending error with actions does.
- PagingBudgets.NoShorterDivision: for items whose total is below 2^32 and budgets that the reservations do not use up, as the code's `uint32` subtractions presuppose.
- Rendering.Page.RenderTemplate: sources with other actions than placeholders `{{.key}}` are left to an arbitrary function, except that an action that is not closed, or begins with a quote at the end of a line, is an error.
- Splitting.Paginate: for ascending bookmarks from 0, as `bookmark` makes them; its inner loop and the computation of the room are methods of their own.
- MenuRuns.MenuMeans: the effect is stated for a chosen target that is a node name other than the current node, on a stack with room, and has code; what a failing move does is in Dispatch.FirstMatch.
- ScopedLoading.ScopedLoadingIsBracketed: the last loaded value is not part of what comes back.
- NodeMaps.NodeMap.ProcessNode: the index of nodes is an object passed in, where the source has a global map; the count of menu labels is left out.
- Assembler.NumSizeIsLeast: the logarithm is the integer part of the exact one, where the source computes it in floating point.
- Storage.DataIsIsolated: aliasing between stored values and the caller's slices is not modelled.
- Navigation.ApplyTarget: the input validator is the default regular expression, written out; registered validators are not part of this model.
- Language selection, translation by gettext and the language flag's effect on titles: titles are an arbitrary function.
- Persisting state and cache, the engine's set-up methods and the file and Postgres stores: input and output.
- Lexing and grammar of the assembly text: emission starts at the parsed arguments; several menu batches in one file.
- `Page.Usage`, `Page.Sizes`, `Page.Val`, `explode` and the printing of paths and instructions.
- Mutexes, contexts and logging.
