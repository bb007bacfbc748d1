/**
 * The `config` array that rollup.config.mjs exports, as a concrete instance of
 * the output describer: a CommonJS plus ES module target and a UMD target,
 * each bundled through node-resolve, babel, commonjs and the license banner.
 */
module ShippedConfig {
  import opened Wrappers
  import opened OutputDescription

  /** The fields of package.json that name the output files. */
  datatype PackageJson = PackageJson(mainFile: string, moduleFile: string, unpkgFile: string)

  /** `!process.env.ROLLUP_WATCH`: production unless watch mode set the variable to a non-empty string. */
  function IsProduction(rollupWatch: Option<string>): (r: bool)
    ensures r <==> (rollupWatch.None? || rollupWatch.value == "")
  {
    rollupWatch == None || rollupWatch == Some("")
  }

  /** `production ? true : 'inline'`. */
  function SourcemapSetting(production: bool): (r: SourceMap)
    ensures r == True <==> production
    ensures !production ==> r == Inline
  {
    if production then True else Inline
  }

  /** The plugin list both targets share, by plugin name. */
  const Plugins: seq<Plugin> := [Plugin("node-resolve"), Plugin("babel"), Plugin("commonjs"), Plugin("banner2")]

  /** The two targets of the shipped configuration. */
  function Config(production: bool, pkg: PackageJson): (r: seq<Target>)
    ensures |r| == 2 && |r[0].outputs| == 2 && |r[1].outputs| == 1
    ensures forall t :: t in r ==> Plugin("babel") in t.plugins
    ensures forall t, o :: t in r && o in t.outputs ==> o.sourcemap == SourcemapSetting(production)
    ensures [r[0].outputs[0].format, r[0].outputs[1].format, r[1].outputs[0].format] == ["cjs", "esm", "umd"]
  {
    var sourcemap := SourcemapSetting(production);
    [ Target(Plugins, [Output(pkg.mainFile, "cjs", sourcemap), Output(pkg.moduleFile, "esm", sourcemap)]),
      Target(Plugins, [Output(pkg.unpkgFile, "umd", sourcemap)]) ]
  }

  /**
   * For the shipped configuration the matrix has three rows, cjs, esm and umd
   * in that order, all transpiled, with source maps exactly when not watching.
   */
  lemma ShippedDescription(rollupWatch: Option<string>, pkg: PackageJson)
    ensures var maps := if IsProduction(rollupWatch) then "Yes" else "No";
      Description(Config(IsProduction(rollupWatch), pkg))
      == [ Some(Header), None,
           Some([pkg.mainFile, "cjs", "Yes", maps]),
           Some([pkg.moduleFile, "esm", "Yes", maps]),
           Some([pkg.unpkgFile, "umd", "Yes", maps]) ]
  {
    var production := IsProduction(rollupWatch);
    var maps := if production then "Yes" else "No";
    var targets := Config(production, pkg);
    assert FindPlugin(Plugins, "babel") == Some(Plugin("babel"));
    var first := targets[0].outputs;
    assert OutputRows(first[..1], "Yes") == [Some([pkg.mainFile, "cjs", "Yes", maps])];
    assert OutputRows(first, "Yes") == OutputRows(first[..1], "Yes") + [Some([pkg.moduleFile, "esm", "Yes", maps])];
    assert OutputRows(targets[1].outputs, "Yes") == [Some([pkg.unpkgFile, "umd", "Yes", maps])];
    assert TargetRows(targets[..1]) == OutputRows(first, "Yes");
    assert targets[..1] == targets[..|targets| - 1];
    assert TargetRows(targets) == TargetRows(targets[..1]) + OutputRows(targets[1].outputs, "Yes");
  }
}
