/** What the extractor hands to the ingest pipeline for one source file. */
module Extraction {
  import opened Wrappers

  datatype Sym = Sym(
    name: string, kind: string, startLine: nat, endLine: nat,
    namespace: Option<string>, partial: bool, paramCount: Option<nat>)

  datatype CallSite = CallSite(name: string, arity: int, receiverType: Option<string>)

  datatype ExtractedFile = ExtractedFile(
    path: string, lang: string, generated: bool,
    symbols: seq<Sym>, imports: seq<string>, calls: seq<CallSite>,
    references: seq<string>, injects: seq<string>)
}
