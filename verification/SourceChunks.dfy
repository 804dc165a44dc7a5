/** The records that the parser hands to the indexer. */
module SourceChunks {
  import opened Wrappers

  datatype SymbolType = FUNCTION | METHOD | CLASS | INTERFACE

  datatype Chunk = Chunk(
    symbol: string, symbolType: SymbolType, parentSymbol: Option<string>,
    startLine: int, endLine: int, content: string)

  datatype RelationKind = CALLS | IMPORTS

  datatype Relationship = Relationship(kind: RelationKind, fromSymbol: Option<string>, target: string)
}
