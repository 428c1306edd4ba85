/** What the engine asks of its resource (resource/resource.go): arbitrary functions of their arguments. */
module Resources {
  import opened Common
  import opened Menus

  /** The answer of the external function behind a symbol. */
  datatype Fetched =
    | NoFunction
    | Failed
    | Got(content: Bytes, flagReset: seq<u32>, flagSet: seq<u32>)

  /** The errors a run can report. */
  datatype VmError =
    | BadCode | UnhandledOpcode | BadTarget | NoCode | NoInput | NoFetcher | FetchFailed(sym: Bytes)
    | CacheRefused | PageRefused | InvalidInput(input: Bytes) | NoLocation | CatchLoop

  /**
   `template` gives the source of a template, and `actions` the text of a source with other actions than
   placeholders (None when it fails). `fetch` also takes the number of fetches made before, so that external code may answer differently
   each time it is asked.
   */
  datatype Resource = Resource(
    template: Bytes -> Option<Bytes>,
    actions: (Bytes, map<Bytes, Bytes>) -> Option<Bytes>,
    code: Bytes -> Option<Bytes>,
    title: Titles,
    fetch: (nat, Bytes, Option<Bytes>) -> Fetched,
    message: VmError -> Bytes)
}
