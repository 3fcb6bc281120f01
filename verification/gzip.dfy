/** The static server's middleware for pre-compressed assets: requests for
    `.gz` files get the content type of the uncompressed file and a gzip
    content encoding; every request is then passed on. */
module GzipHeaders {
  import opened Strings

  datatype Header = Header(name: string, value: string)

  /** What the middleware did to one request: the headers it set, in order,
      and how many times it handed the request to the next handler. */
  datatype Handled = Handled(headers: seq<Header>, nextCalls: nat)

  const JavascriptType := "application/javascript"
  const WasmType := "application/wasm"
  const OctetStreamType := "application/octet-stream"

  /** The content type chosen for a `.gz` path by its inner extension. */
  function ContentTypeOf(path: string): string {
    if EndsWith(path, ".js.gz") then JavascriptType
    else if EndsWith(path, ".wasm.gz") then WasmType
    else if EndsWith(path, ".data.gz") then OctetStreamType
    else OctetStreamType
  }

  function SetGzipHeaders(path: string): (r: Handled)
    ensures r.nextCalls == 1
    ensures !EndsWith(path, ".gz") ==> r.headers == []
    ensures EndsWith(path, ".gz") ==>
              && |r.headers| == 2
              && r.headers[0].name == "Content-Type"
              && r.headers[1] == Header("Content-Encoding", "gzip")
    ensures EndsWith(path, ".js.gz") ==> r.headers[0].value == JavascriptType
    ensures EndsWith(path, ".wasm.gz") ==> r.headers[0].value == WasmType
    ensures EndsWith(path, ".gz") && !EndsWith(path, ".js.gz") && !EndsWith(path, ".wasm.gz")
      ==> r.headers[0].value == OctetStreamType
  {
    JsAndWasmExclusive(path);
    InnerSuffixesAreGz(path);
    var headers :=
      if EndsWith(path, ".gz")
      then [Header("Content-Type", ContentTypeOf(path)), Header("Content-Encoding", "gzip")]
      else [];
    Handled(headers, 1)
  }

  /** A path cannot end in both `.js.gz` and `.wasm.gz`, so the first two
      content-type rules never compete. */
  lemma {:induction false} JsAndWasmExclusive(path: string)
    ensures !(EndsWith(path, ".js.gz") && EndsWith(path, ".wasm.gz"))
  {
    if EndsWith(path, ".js.gz") && |path| >= 8 {
      assert path[|path| - 6..][0] == '.';
      assert path[|path| - 8..][2] == path[|path| - 6] == '.';
    }
  }

  /** Every `.gz` path ends in `.gz` inner suffixes consistently: a `.js.gz`
      or `.wasm.gz` path is a `.gz` path. */
  lemma InnerSuffixesAreGz(path: string)
    ensures EndsWith(path, ".js.gz") ==> EndsWith(path, ".gz")
    ensures EndsWith(path, ".wasm.gz") ==> EndsWith(path, ".gz")
    ensures EndsWith(path, ".data.gz") ==> EndsWith(path, ".gz")
  {
    if EndsWith(path, ".js.gz") {
      assert path[|path| - 3..] == (path[|path| - 6..])[3..];
    }
    if EndsWith(path, ".wasm.gz") {
      assert path[|path| - 3..] == (path[|path| - 8..])[5..];
    }
    if EndsWith(path, ".data.gz") {
      assert path[|path| - 3..] == (path[|path| - 8..])[5..];
    }
  }
}
