/** The tables of a program as a function of the descriptor
    (`CalldataCompiler.compile`, keepkeylib/erc7730_compiler.py). */
module CompiledTables {
  import opened Wrappers
  import opened AbiTypes
  import opened FlatAbi
  import opened Program
  import opened DisplayWord
  import opened DisplayFields
  import opened CompiledDisplay
  import opened FieldContents
  import opened Compiler
  import opened CompiledProgram
  import opened Compilable
  import SignatureParser
  import StringTable

  /** The tables, but for the resource summary. */
  function TablesFrom(w: Work, root: AbiType, bindings: seq<Literal>): Tables {
    Tables(w.pools.strings, Rows(root), w.pools.paths, w.pools.literals, w.conditions.list,
           SortFormatters(w.formatters), w.layout.displays, bindings, [])
  }

  function Summarised(root: AbiType, t: Tables): Tables {
    var depth, deepest := TreeDepth(root), Deepest(t.displays, |t.displays|);
    if depth <= 255 && deepest <= 255 && Resources(t, depth, deepest).Ok? then
      t.(resources := Resources(t, depth, deepest).value)
    else t
  }

  function FieldTables(root: AbiType, ranges: seq<Range>, fields: seq<Field>, intent: string, tokens: seq<Token>,
      domain: seq<Literal>, bindings: seq<Literal>, extra: seq<string>): Tables
  {
    var strings := StringTable.Table(StringTable.Encoded(ProgramTexts(fields, ranges, intent, tokens, extra)));
    Summarised(root, TablesFrom(WorkDone(root, ranges, fields, intent, tokens, strings, domain), root, bindings))
  }

  /** What a descriptor is compiled to. */
  function TablesOf(signature: string, items: seq<Item>, intent: string, tokens: seq<Token>,
      domain: seq<Literal>, bindings: seq<Literal>, extra: seq<string>): Tables
    requires SignatureParser.ParseFunction(signature).Ok? && DisplayFields.Flatten(items, None, 0).Ok?
  {
    var (fields, ranges) := DisplayFields.Flatten(items, None, 0).value;
    FieldTables(SignatureParser.ParseFunction(signature).value.1, ranges, Shown(fields, InterpolatedPaths(tokens)),
                intent, tokens, domain, bindings, extra)
  }

  /** What `compile` does with any descriptor. */
  function Compiled(signature: string, items: seq<Item>, intent: string, tokens: seq<Token>,
      domain: seq<Literal>, bindings: seq<Literal>, extra: seq<string>): Result<Tables>
  {
    if CanCompile(signature, items, intent, tokens, domain, bindings, extra) then
      Ok(TablesOf(signature, items, intent, tokens, domain, bindings, extra))
    else Raised
  }
}
