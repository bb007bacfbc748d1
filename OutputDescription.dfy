/**
 * The row derivation of `generateOutputDescription` in rollup.config.mjs: from
 * the list of rollup build targets, the matrix of lines handed to the table
 * renderer. A line is either a row of cells or `null`, the placeholder the
 * renderer turns into the horizontal rule.
 */
module OutputDescription {
  import opened Wrappers

  /** The values rollup accepts for an output's `sourcemap` option, plus "not set". */
  datatype SourceMap = True | False | Inline | Hidden | Absent

  /** One entry of a target's `output` list; only the fields the table reads. */
  datatype Output = Output(file: string, format: string, sourcemap: SourceMap)

  /** A rollup plugin, of which the table only looks at the `name`. */
  datatype Plugin = Plugin(name: string)

  /** One build target: its `plugins` and its `output` list. */
  datatype Target = Target(plugins: seq<Plugin>, outputs: seq<Output>)

  /** A line of the matrix: `Some(cells)` or `None` for JavaScript's `null`. */
  type Line = Option<seq<string>>

  const Header: seq<string> := ["File", "Module Type", "Transpiled", "Source Maps"]

  /** `plugins.find(plugin => plugin.name === name)`. */
  function FindPlugin(plugins: seq<Plugin>, name: string): (r: Option<Plugin>)
    ensures r.Some? ==> r.value in plugins && r.value.name == name
    ensures r.None? <==> forall p :: p in plugins ==> p.name != name
  {
    if plugins == [] then None
    else if plugins[0].name == name then Some(plugins[0])
    else FindPlugin(plugins[1..], name)
  }

  /** The "Transpiled" cell of every row of a target. */
  function TranspiledCell(t: Target): string
  {
    if FindPlugin(t.plugins, "babel").Some? then "Yes" else "No"
  }

  /** The "Source Maps" cell: a strict `=== true` test. */
  function SourceMapsCell(o: Output): string
  {
    if o.sourcemap == True then "Yes" else "No"
  }

  /** The four cells of the row for output `o` of a target. */
  function RowCells(o: Output, transpiled: string): seq<string>
  {
    [o.file, o.format, transpiled, SourceMapsCell(o)]
  }

  /** The rows of a list of outputs that share one "Transpiled" cell, in order. */
  function OutputRows(outputs: seq<Output>, transpiled: string): seq<Line>
  {
    if outputs == [] then []
    else OutputRows(outputs[..|outputs| - 1], transpiled) + [Some(RowCells(outputs[|outputs| - 1], transpiled))]
  }

  /** The rows of all targets, target by target and output by output. */
  function TargetRows(targets: seq<Target>): seq<Line>
  {
    if targets == [] then []
    else
      var t := targets[|targets| - 1];
      TargetRows(targets[..|targets| - 1]) + OutputRows(t.outputs, TranspiledCell(t))
  }

  /** The whole matrix: header, rule placeholder, then the rows. */
  function Description(targets: seq<Target>): seq<Line>
  {
    [Some(Header), None] + TargetRows(targets)
  }

  /** The number of outputs of all targets together. */
  function TotalOutputs(targets: seq<Target>): nat
  {
    if targets == [] then 0
    else TotalOutputs(targets[..|targets| - 1]) + |targets[|targets| - 1].outputs|
  }

  /**
   * The nested loops of `generateOutputDescription` that push one line per
   * output onto `[header, null]`.
   */
  method GenerateOutputLines(rollupConfig: seq<Target>) returns (lines: seq<Line>)
    ensures lines == Description(rollupConfig)
  {
    lines := [Some(Header), None];
    for ti := 0 to |rollupConfig|
      invariant lines == Description(rollupConfig[..ti])
    {
      var config := rollupConfig[ti];
      var babel := FindPlugin(config.plugins, "babel");
      var transpiled := if babel.Some? then "Yes" else "No";
      ghost var before := lines;
      for oi := 0 to |config.outputs|
        invariant lines == before + OutputRows(config.outputs[..oi], transpiled)
      {
        var outputConfig := config.outputs[oi];
        var sourceMaps := if outputConfig.sourcemap == True then "Yes" else "No";
        lines := lines + [Some([outputConfig.file, outputConfig.format, transpiled, sourceMaps])];
        OutputRowsStep(config.outputs, transpiled, oi);
      }
      assert config.outputs[..|config.outputs|] == config.outputs;
      DescriptionStep(rollupConfig, ti);
    }
    assert rollupConfig[..|rollupConfig|] == rollupConfig;
  }

  /** Describing one more output appends its row. */
  lemma OutputRowsStep(outputs: seq<Output>, transpiled: string, k: int)
    requires 0 <= k < |outputs|
    ensures OutputRows(outputs[..k + 1], transpiled)
         == OutputRows(outputs[..k], transpiled) + [Some(RowCells(outputs[k], transpiled))]
  {
    assert outputs[..k + 1][..k] == outputs[..k];
  }

  /** Describing one more target appends the rows of its outputs. */
  lemma DescriptionStep(targets: seq<Target>, k: int)
    requires 0 <= k < |targets|
    ensures Description(targets[..k + 1])
         == Description(targets[..k]) + OutputRows(targets[k].outputs, TranspiledCell(targets[k]))
  {
    assert targets[..k + 1][..k] == targets[..k];
  }

  /** The rows of a list of outputs: one per output, in order. */
  lemma {:induction false} OutputRowsAt(outputs: seq<Output>, transpiled: string, k: int)
    requires 0 <= k < |outputs|
    ensures |OutputRows(outputs, transpiled)| == |outputs|
    ensures OutputRows(outputs, transpiled)[k] == Some(RowCells(outputs[k], transpiled))
  {
    OutputRowsLength(outputs, transpiled);
    if k < |outputs| - 1 {
      OutputRowsAt(outputs[..|outputs| - 1], transpiled, k);
    }
  }

  /** One row per output. */
  lemma {:induction false} OutputRowsLength(outputs: seq<Output>, transpiled: string)
    ensures |OutputRows(outputs, transpiled)| == |outputs|
  {
    if outputs != [] {
      OutputRowsLength(outputs[..|outputs| - 1], transpiled);
    }
  }

  /** The target rows number exactly the outputs of all targets. */
  lemma {:induction false} TargetRowsLength(targets: seq<Target>)
    ensures |TargetRows(targets)| == TotalOutputs(targets)
  {
    if targets != [] {
      TargetRowsLength(targets[..|targets| - 1]);
      OutputRowsLength(targets[|targets| - 1].outputs, TranspiledCell(targets[|targets| - 1]));
    }
  }

  /**
   * The matrix starts with the header and the rule placeholder and has one
   * more line per output; with no targets it is those two lines alone.
   */
  lemma DescriptionShape(targets: seq<Target>)
    ensures |Description(targets)| == 2 + TotalOutputs(targets)
    ensures Description(targets)[0] == Some(Header) && Description(targets)[1] == None
    ensures targets == [] ==> Description(targets) == [Some(Header), None]
  {
    TargetRowsLength(targets);
  }

  /** The outputs of the first `ti` targets come before those of target `ti`. */
  lemma {:induction false} TotalOutputsPrefix(targets: seq<Target>, ti: int)
    requires 0 <= ti < |targets|
    ensures TotalOutputs(targets[..ti]) + |targets[ti].outputs| <= TotalOutputs(targets)
  {
    if ti < |targets| - 1 {
      assert targets[..|targets| - 1][..ti] == targets[..ti];
      TotalOutputsPrefix(targets[..|targets| - 1], ti);
    } else {
      assert targets[..|targets| - 1] == targets[..ti];
    }
  }

  /**
   * Output `oi` of target `ti` is described by line
   * `2 + TotalOutputs(targets[..ti]) + oi`: its file, its format, the target's
   * "Transpiled" cell and its own "Source Maps" cell. Lines appear in target
   * order and, within a target, in output order.
   */
  lemma {:induction false} DescriptionRow(targets: seq<Target>, ti: int, oi: int)
    requires 0 <= ti < |targets| && 0 <= oi < |targets[ti].outputs|
    ensures 2 + TotalOutputs(targets[..ti]) + oi < |Description(targets)|
    ensures Description(targets)[2 + TotalOutputs(targets[..ti]) + oi]
         == Some([targets[ti].outputs[oi].file, targets[ti].outputs[oi].format,
                  TranspiledCell(targets[ti]), SourceMapsCell(targets[ti].outputs[oi])])
  {
    DescriptionShape(targets);
    TotalOutputsPrefix(targets, ti);
    TargetRowLine(targets, ti, oi);
  }

  /** `DescriptionRow` without the two leading lines. */
  lemma {:induction false} TargetRowLine(targets: seq<Target>, ti: int, oi: int)
    requires 0 <= ti < |targets| && 0 <= oi < |targets[ti].outputs|
    ensures TotalOutputs(targets[..ti]) + oi < |TargetRows(targets)|
    ensures TargetRows(targets)[TotalOutputs(targets[..ti]) + oi]
         == Some(RowCells(targets[ti].outputs[oi], TranspiledCell(targets[ti])))
  {
    var init := targets[..|targets| - 1];
    var last := targets[|targets| - 1];
    TargetRowsLength(targets);
    TotalOutputsPrefix(targets, ti);
    TargetRowsLength(init);
    if ti < |targets| - 1 {
      assert init[..ti] == targets[..ti];
      TargetRowLine(init, ti, oi);
    } else {
      assert init == targets[..ti];
      OutputRowsAt(last.outputs, TranspiledCell(last), oi);
    }
  }

  /** "Transpiled" is "Yes" exactly when the target has a plugin named `babel`. */
  lemma TranspiledIffBabel(t: Target)
    ensures TranspiledCell(t) == (if Plugin("babel") in t.plugins then "Yes" else "No")
  {
  }

  /** "Source Maps" is "Yes" exactly for `sourcemap: true`; `'inline'`, `false`, `'hidden'` and unset give "No". */
  lemma SourceMapsIffTrue(o: Output)
    ensures SourceMapsCell(o) == "Yes" <==> o.sourcemap == True
    ensures SourceMapsCell(o) == "No" <==> o.sourcemap != True
  {
  }
}
