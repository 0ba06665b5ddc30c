/**
 * The hardened plugin loader `runPlugin(pluginId, input)`.
 *
 * The plugin directory is `<plugins>/<pluginId>`; the loader reads
 * `manifest.json` there, requires its `entry` to be a non-empty suffix of the
 * fixed script path `<plugins>/<pluginId>/script.ts`, imports that script,
 * requires its default export to be a function, and returns what the function
 * returns for the unchanged input. Every failure on the way is re-thrown as
 * one Error whose message names the plugin.
 *
 * The file read, `JSON.parse`, the dynamic `import` and the plugin body are
 * effects; the model receives them as function parameters and records, in a
 * trace, which of them the loader performed and in what order.
 */
module PluginLoader {
  import opened Wrappers
  import opened Text

  /** The fields of the parsed manifest the loader consults. `None` stands for a missing `entry`. */
  datatype Manifest = Manifest(entry: Option<string>)

  /** The default export of the imported script: a function of the input, or something else. */
  datatype Export<V> = Callable(body: string -> Result<V>) | NotCallable

  /** The effects the loader performs. */
  datatype Effect = ReadManifest(path: string) | Import(path: string) | Invoke(input: string)

  /** What one call of `runPlugin` does: its outcome and the effects it performed, in order. */
  datatype Run<V> = Run(outcome: Result<V>, trace: seq<Effect>)

  const GateMessage := "Invalid or missing entry script in manifest."
  const ShapeMessage := "Plugin script does not export a default function."

  /** `path.join(dir, name)` for an already resolved directory. */
  function JoinPath(dir: string, name: string): (p: string)
    ensures EndsWith(p, name)
  {
    if dir != [] && dir[|dir| - 1] == '/' then dir + name else dir + "/" + name
  }

  function ManifestPath(dir: string): string {
    JoinPath(dir, "manifest.json")
  }

  /** The only module the loader ever imports. */
  function ScriptPath(dir: string): string {
    JoinPath(dir, "script.ts")
  }

  /** `!manifest.entry || !pluginPath.endsWith(manifest.entry)` fails the gate; this is its negation. */
  predicate EntryGate(entry: Option<string>, scriptPath: string) {
    entry.Some? && entry.value != "" && EndsWith(scriptPath, entry.value)
  }

  /** The message of the Error the loader throws for a failure with message `msg`. */
  function Wrap(pluginId: string, msg: string): string {
    "Execution failed for plugin '" + pluginId + "': " + msg
  }

  /**
   * `runPlugin(pluginId, input)` with the plugin directory already resolved
   * to `dir` (`path.resolve` is not part of this model).
   */
  function RunPlugin<V>(
    pluginId: string, input: string, dir: string,
    readFile: string -> Result<string>,
    parse: string -> Result<Manifest>,
    importModule: string -> Result<Export<V>>
  ): (r: Run<V>)
    ensures r.trace != [] && r.trace <= [ReadManifest(ManifestPath(dir)), Import(ScriptPath(dir)), Invoke(input)]
    ensures r.outcome.Failure? ==> exists msg :: r.outcome.error == Wrap(pluginId, msg)
  {
    var t0 := [ReadManifest(ManifestPath(dir))];
    match readFile(ManifestPath(dir))
    case Failure(e) => Run(Failure(Wrap(pluginId, e)), t0)
    case Success(raw) =>
      match parse(raw)
      case Failure(e) => Run(Failure(Wrap(pluginId, e)), t0)
      case Success(manifest) =>
        if !EntryGate(manifest.entry, ScriptPath(dir)) then
          Run(Failure(Wrap(pluginId, GateMessage)), t0)
        else
          var t1 := t0 + [Import(ScriptPath(dir))];
          match importModule(ScriptPath(dir))
          case Failure(e) => Run(Failure(Wrap(pluginId, e)), t1)
          case Success(NotCallable) => Run(Failure(Wrap(pluginId, ShapeMessage)), t1)
          case Success(Callable(body)) =>
            var t2 := t1 + [Invoke(input)];
            match body(input)
            case Failure(e) => Run(Failure(Wrap(pluginId, e)), t2)
            case Success(v) => Run(Success(v), t2)
  }

  /** The manifest was read and parsed and its entry passes the gate. */
  predicate GatePasses(
    dir: string, readFile: string -> Result<string>, parse: string -> Result<Manifest>)
  {
    && readFile(ManifestPath(dir)).Success?
    && parse(readFile(ManifestPath(dir)).value).Success?
    && EntryGate(parse(readFile(ManifestPath(dir)).value).value.entry, ScriptPath(dir))
  }

  /** The script was imported and its default export is a function. */
  predicate ExportsFunction<V>(dir: string, importModule: string -> Result<Export<V>>) {
    importModule(ScriptPath(dir)).Success? && importModule(ScriptPath(dir)).value.Callable?
  }

  /** The gate passes exactly for a non-empty entry that the script path ends with. */
  lemma GateExamples(dir: string)
    ensures EntryGate(Some("script.ts"), ScriptPath(dir))
    ensures EntryGate(Some("t.ts"), ScriptPath(dir))
    ensures EntryGate(Some(ScriptPath(dir)), ScriptPath(dir))
    ensures !EntryGate(Some(""), ScriptPath(dir))
    ensures !EntryGate(None, ScriptPath(dir))
    ensures !EntryGate(Some("main.ts"), ScriptPath(dir))
  {
    var p := ScriptPath(dir);
    assert p[|p| - 4..] == p[|p| - 9..][5..];
    assert p[|p| - 7..] == p[|p| - 9..][2..];
    assert p[|p| - 7..][0] == 'r';
  }

  /**
   * Only the fixed script path is ever imported, whatever the manifest says,
   * and the import happens only after the manifest was read and the gate passed.
   */
  lemma {:induction false} ImportOnlyScriptAfterGate<V>(
    pluginId: string, input: string, dir: string,
    readFile: string -> Result<string>, parse: string -> Result<Manifest>,
    importModule: string -> Result<Export<V>>)
    ensures var r := RunPlugin(pluginId, input, dir, readFile, parse, importModule);
      forall i :: 0 <= i < |r.trace| && r.trace[i].Import? ==>
        r.trace[i].path == ScriptPath(dir) && i == 1 && r.trace[0] == ReadManifest(ManifestPath(dir))
    ensures var r := RunPlugin(pluginId, input, dir, readFile, parse, importModule);
      (exists i :: 0 <= i < |r.trace| && r.trace[i].Import?) <==> GatePasses(dir, readFile, parse)
  {
    var r := RunPlugin(pluginId, input, dir, readFile, parse, importModule);
    var full := [ReadManifest(ManifestPath(dir)), Import(ScriptPath(dir)), Invoke(input)];
    assert r.trace <= full;
    if GatePasses(dir, readFile, parse) {
      assert r.trace[1].Import?;
    } else {
      assert r.trace == [ReadManifest(ManifestPath(dir))];
    }
  }

  /**
   * The body is invoked, once and with the unchanged input, exactly when the
   * gate passes and the default export is a function.
   */
  lemma {:induction false} InvokeOnlyWhenChecked<V>(
    pluginId: string, input: string, dir: string,
    readFile: string -> Result<string>, parse: string -> Result<Manifest>,
    importModule: string -> Result<Export<V>>)
    ensures var r := RunPlugin(pluginId, input, dir, readFile, parse, importModule);
      (exists i :: 0 <= i < |r.trace| && r.trace[i].Invoke?)
      <==> GatePasses(dir, readFile, parse) && ExportsFunction(dir, importModule)
    ensures var r := RunPlugin(pluginId, input, dir, readFile, parse, importModule);
      forall i :: 0 <= i < |r.trace| && r.trace[i].Invoke? ==> r.trace[i] == Invoke(input) && i == |r.trace| - 1
  {
    var r := RunPlugin(pluginId, input, dir, readFile, parse, importModule);
    if GatePasses(dir, readFile, parse) && ExportsFunction(dir, importModule) {
      assert r.trace[2].Invoke?;
    } else {
      assert forall i :: 0 <= i < |r.trace| ==> !r.trace[i].Invoke?;
    }
  }

  /** On success the result is what the body returned for the unchanged input. */
  lemma {:induction false} SuccessIsBodyResult<V>(
    pluginId: string, input: string, dir: string,
    readFile: string -> Result<string>, parse: string -> Result<Manifest>,
    importModule: string -> Result<Export<V>>)
    ensures var r := RunPlugin(pluginId, input, dir, readFile, parse, importModule);
      r.outcome.Success? <==>
        && GatePasses(dir, readFile, parse)
        && ExportsFunction(dir, importModule)
        && importModule(ScriptPath(dir)).value.body(input).Success?
    ensures var r := RunPlugin(pluginId, input, dir, readFile, parse, importModule);
      r.outcome.Success? ==> r.outcome == importModule(ScriptPath(dir)).value.body(input)
  {
  }

  /**
   * Every failure is one Error naming the plugin and carrying the original
   * message: of the file read, of the parse, of the gate, of the import, of
   * the shape check, or of the body.
   */
  lemma {:induction false} FailureMessages<V>(
    pluginId: string, input: string, dir: string,
    readFile: string -> Result<string>, parse: string -> Result<Manifest>,
    importModule: string -> Result<Export<V>>)
    ensures var r := RunPlugin(pluginId, input, dir, readFile, parse, importModule);
      r.outcome.Failure? ==>
        || (readFile(ManifestPath(dir)).Failure?
            && r.outcome.error == Wrap(pluginId, readFile(ManifestPath(dir)).error))
        || (readFile(ManifestPath(dir)).Success? && parse(readFile(ManifestPath(dir)).value).Failure?
            && r.outcome.error == Wrap(pluginId, parse(readFile(ManifestPath(dir)).value).error))
        || (readFile(ManifestPath(dir)).Success? && parse(readFile(ManifestPath(dir)).value).Success?
            && !GatePasses(dir, readFile, parse) && r.outcome.error == Wrap(pluginId, GateMessage))
        || (GatePasses(dir, readFile, parse) && importModule(ScriptPath(dir)).Failure?
            && r.outcome.error == Wrap(pluginId, importModule(ScriptPath(dir)).error))
        || (GatePasses(dir, readFile, parse) && importModule(ScriptPath(dir)) == Success(NotCallable)
            && r.outcome.error == Wrap(pluginId, ShapeMessage))
        || (GatePasses(dir, readFile, parse) && ExportsFunction(dir, importModule)
            && importModule(ScriptPath(dir)).value.body(input).Failure?
            && r.outcome.error == Wrap(pluginId, importModule(ScriptPath(dir)).value.body(input).error))
  {
  }

  /** The original message can be recovered from the wrapped one. */
  function Unwrap(pluginId: string, wrapped: string): (msg: Option<string>)
    ensures msg.Some? ==> Wrap(pluginId, msg.value) == wrapped
  {
    var prefix := "Execution failed for plugin '" + pluginId + "': ";
    if StartsWith(wrapped, prefix) then Some(wrapped[|prefix|..]) else None
  }

  lemma {:induction false} UnwrapWrap(pluginId: string, msg: string)
    ensures Unwrap(pluginId, Wrap(pluginId, msg)) == Some(msg)
  {
    var prefix := "Execution failed for plugin '" + pluginId + "': ";
    assert Wrap(pluginId, msg) == prefix + msg;
    assert (prefix + msg)[..|prefix|] == prefix;
  }
}
