/** The examples launcher: the table of examples and renderers a build
    registers, the command line (`<exampleName> [-r <rendererName>]`), the
    choice of the example to launch, and the loop that launches examples
    and switches between them as the running example asks. */
module ExampleRunner {
  import opened Wrappers

  /** The switch that names the renderer on the command line. */
  const RENDERER_OPTION: string := "-r"

  /** The renderer sets an example declares it works with. */
  const SUPPORTS_ALL_RENDERER: seq<string> := ["Null", "Vulkan", "OpenGL", "OpenGLES3", "Direct3D9", "Direct3D10", "Direct3D11", "Direct3D12"]
  const ONLY_SHADER_MODEL_4_PLUS: seq<string> := ["Null", "Vulkan", "OpenGL", "Direct3D10", "Direct3D11", "Direct3D12"]
  const ONLY_SHADER_MODEL_5_PLUS: seq<string> := ["Null", "Vulkan", "OpenGL", "Direct3D11", "Direct3D12"]

  /** The renderer the constructor's `#ifdef` chain prefers, first to last. */
  const DEFAULT_RENDERER_PRECEDENCE: seq<string> := ["Direct3D11", "OpenGL", "Direct3D10", "Direct3D9", "OpenGLES3", "Vulkan", "Direct3D12", "Null"]

  /** The preprocessor definitions a build of the runner sees: `__ANDROID__`,
      `RENDERER_RUNTIME`, `RENDERER_RUNTIME_IMGUI`, and the renderers whose
      `RENDERER_<NAME>` is defined, by name. */
  datatype Build = Build(android: bool, rendererRuntime: bool, rendererRuntimeImGui: bool, renderers: set<string>)

  /** One `addExample` call: an example's name and the renderers it supports. */
  datatype Registration = Registration(name: string, supportedRenderers: seq<string>)

  /** The examples a build registers, in the constructor's order. */
  function Registrations(b: Build): seq<Registration> {
    [ Registration("FirstTriangle", SUPPORTS_ALL_RENDERER),
      Registration("FirstIndirectBuffer", SUPPORTS_ALL_RENDERER),
      Registration("VertexBuffer", SUPPORTS_ALL_RENDERER),
      Registration("FirstTexture", SUPPORTS_ALL_RENDERER),
      Registration("FirstRenderToTexture", SUPPORTS_ALL_RENDERER),
      Registration("FirstMultipleRenderTargets", SUPPORTS_ALL_RENDERER) ]
    + (if b.android then [] else [Registration("FirstMultipleSwapChains", SUPPORTS_ALL_RENDERER)])
    + [ Registration("FirstInstancing", SUPPORTS_ALL_RENDERER),
        Registration("FirstGeometryShader", ONLY_SHADER_MODEL_4_PLUS),
        Registration("FirstTessellationShader", ONLY_SHADER_MODEL_5_PLUS),
        Registration("FirstComputeShader", ONLY_SHADER_MODEL_5_PLUS),
        Registration("FirstGpgpu", SUPPORTS_ALL_RENDERER),
        Registration("IcosahedronTessellation", ONLY_SHADER_MODEL_5_PLUS) ]
    + (if !b.rendererRuntime then []
       else ((if b.rendererRuntimeImGui then [Registration("ImGuiExampleSelector", SUPPORTS_ALL_RENDERER)] else [])
         + [ Registration("FirstMesh", SUPPORTS_ALL_RENDERER),
             Registration("FirstCompositor", SUPPORTS_ALL_RENDERER),
             Registration("FirstScene", SUPPORTS_ALL_RENDERER),
             Registration("InstancedCubes", SUPPORTS_ALL_RENDERER) ]))
  }

  function ExampleNames(b: Build): set<string> {
    set k | 0 <= k < |Registrations(b)| :: Registrations(b)[k].name
  }

  /** `mExampleToSupportedRenderers` after the registrations, one after
      the other. */
  function SupportTable(b: Build): map<string, seq<string>> {
    SupportTableOf(Registrations(b))
  }

  function SupportTableOf(regs: seq<Registration>): map<string, seq<string>>
    decreases |regs|
  {
    if |regs| == 0 then map[]
    else SupportTableOf(regs[..|regs| - 1])[regs[|regs| - 1].name := regs[|regs| - 1].supportedRenderers]
  }

  /** The renderers a build can instance. */
  function AvailableRenderers(b: Build): set<string> {
    set r | r in SUPPORTS_ALL_RENDERER && r in b.renderers
  }

  /** The first of `candidates` in `s`, or "" when there is none. */
  function FirstIn(candidates: seq<string>, s: set<string>): (r: string)
    requires forall k :: 0 <= k < |candidates| ==> candidates[k] != ""
    ensures r == "" <==> forall k :: 0 <= k < |candidates| ==> candidates[k] !in s
    ensures r != "" ==> exists k :: 0 <= k < |candidates| && candidates[k] == r && r in s && forall j :: 0 <= j < k ==> candidates[j] !in s
  {
    if |candidates| == 0 then ""
    else if candidates[0] in s then candidates[0]
    else
      assert forall k :: 1 <= k < |candidates| ==> candidates[k] == candidates[1..][k - 1];
      FirstIn(candidates[1..], s)
  }

  /** `mDefaultRendererName`: the most preferred renderer the build has,
      and the empty name in a build without any. */
  function DefaultRendererName(b: Build): string {
    FirstIn(DEFAULT_RENDERER_PRECEDENCE, b.renderers)
  }

  /** `mDefaultExampleName` as the source's constructor sets it. */
  function DefaultExampleNameAsWritten(b: Build): string {
    if b.rendererRuntime then "ImGuiExampleSelector" else "FirstTriangle"
  }

  /** The default example as the constructor evidently means it: the example
      selector when it is built in, the first triangle otherwise. */
  function DefaultExampleName(b: Build): string {
    if b.rendererRuntime && b.rendererRuntimeImGui then "ImGuiExampleSelector" else "FirstTriangle"
  }

  /** The constructor's default example is one the build never registers
      exactly in the builds with the renderer runtime but without its ImGui
      part. */
  lemma DefaultExampleAsWrittenUnregistered(b: Build)
    ensures DefaultExampleNameAsWritten(b) !in ExampleNames(b) <==> b.rendererRuntime && !b.rendererRuntimeImGui
  {
    var regs := Registrations(b);
    if b.rendererRuntime && !b.rendererRuntimeImGui {
      assert forall k :: 0 <= k < |regs| ==> regs[k].name != "ImGuiExampleSelector";
    } else if b.rendererRuntime {
      var k := if b.android then 12 else 13;
      assert regs[k].name == "ImGuiExampleSelector";
    } else {
      assert regs[0].name == "FirstTriangle";
    }
  }

  /** The corrected default is registered in every build, and agrees with
      the constructor whenever the example selector is built in or the
      renderer runtime is not. */
  lemma DefaultExampleRegistered(b: Build)
    ensures DefaultExampleName(b) in ExampleNames(b)
    ensures (b.rendererRuntimeImGui || !b.rendererRuntime) ==> DefaultExampleName(b) == DefaultExampleNameAsWritten(b)
  {
    var regs := Registrations(b);
    if b.rendererRuntime && b.rendererRuntimeImGui {
      var k := if b.android then 12 else 13;
      assert regs[k].name == "ImGuiExampleSelector";
    } else {
      assert regs[0].name == "FirstTriangle";
    }
  }

  /** A build has a default renderer exactly when it has a renderer at all,
      and then the default is one it can instance. */
  lemma DefaultRendererAvailable(b: Build)
    ensures DefaultRendererName(b) != "" <==> AvailableRenderers(b) != {}
    ensures DefaultRendererName(b) != "" ==> DefaultRendererName(b) in AvailableRenderers(b)
  {
    var all := SUPPORTS_ALL_RENDERER;
    var order := DEFAULT_RENDERER_PRECEDENCE;
    assert all[0] == order[7] && all[1] == order[5] && all[2] == order[1] && all[3] == order[4];
    assert all[4] == order[3] && all[5] == order[2] && all[6] == order[0] && all[7] == order[6];
    assert forall x :: x in all <==> x in order;
    if AvailableRenderers(b) != {} {
      var x :| x in AvailableRenderers(b);
      var k :| 0 <= k < |order| && order[k] == x;
      assert order[k] in b.renderers;
      assert !(forall j :: 0 <= j < |order| ==> order[j] !in b.renderers);
      assert FirstIn(order, b.renderers) != "";
    }
    if DefaultRendererName(b) != "" {
      var r := DefaultRendererName(b);
      assert r in order;
      assert r in AvailableRenderers(b);
    }
  }

  /** The examples that need shader model 5 never run on Direct3D 9 or 10,
      nor on OpenGL ES 3; the geometry shader example, which needs shader
      model 4, runs on Direct3D 10 but not on 9; every other example lists
      every renderer. */
  lemma ShaderModelLimits(b: Build, k: nat)
    requires k < |Registrations(b)|
    ensures var r := Registrations(b)[k];
      && (r.name in {"FirstTessellationShader", "FirstComputeShader", "IcosahedronTessellation"} ==>
            "OpenGLES3" !in r.supportedRenderers && "Direct3D9" !in r.supportedRenderers && "Direct3D10" !in r.supportedRenderers)
      && (r.name == "FirstGeometryShader" ==>
            "OpenGLES3" !in r.supportedRenderers && "Direct3D9" !in r.supportedRenderers && "Direct3D10" in r.supportedRenderers)
      && (r.name !in {"FirstTessellationShader", "FirstComputeShader", "IcosahedronTessellation", "FirstGeometryShader"} ==>
            r.supportedRenderers == SUPPORTS_ALL_RENDERER)
  {
  }

  /** What the runner knows when it chooses an example: its registry. */
  datatype Registry = Registry(
    defaultRendererName: string,
    defaultExampleName: string,
    availableExamples: set<string>,
    exampleToSupportedRenderers: map<string, seq<string>>,
    availableRenderers: set<string>)

  /** The registry the constructor builds, with the corrected default
      example `DefaultExampleName` in place of the one the source's
      constructor sets. */
  function BuildRegistry(b: Build): Registry {
    Registry(DefaultRendererName(b), DefaultExampleName(b), ExampleNames(b), SupportTable(b), AvailableRenderers(b))
  }

  /** The four names the runner keeps between launches. */
  datatype Names = Names(currentExampleName: string, currentRendererName: string, nextExampleName: string, nextRendererName: string)

  // Command line

  /** What the argument loop leaves behind: the example and renderer names
      it read last, and whether every `-r` had its renderer name. */
  datatype Parse = Parse(exampleName: string, rendererName: string, complete: bool)

  /** The argument loop from the current argument on: `-r` takes the next
      argument as the renderer name, whatever it is; any other argument is
      the example name. */
  function ParseFrom(args: seq<string>, exampleName: string, rendererName: string): Parse
    decreases |args|
  {
    if |args| == 0 then Parse(exampleName, rendererName, true)
    else if args[0] != RENDERER_OPTION then ParseFrom(args[1..], args[0], rendererName)
    else if 1 < |args| then ParseFrom(args[2..], exampleName, args[1])
    else Parse(exampleName, rendererName, false)
  }

  /** One unit of a command line: an example name, or `-r` with its renderer. */
  datatype Token = ExampleArgument(name: string) | RendererArgument(name: string)

  predicate WellFormed(tokens: seq<Token>) {
    forall k :: 0 <= k < |tokens| && tokens[k].ExampleArgument? ==> tokens[k].name != RENDERER_OPTION
  }

  function Arguments(t: Token): seq<string> {
    match t
    case ExampleArgument(name) => [name]
    case RendererArgument(name) => [RENDERER_OPTION, name]
  }

  /** The command line a run of units spells out. */
  function Render(tokens: seq<Token>): seq<string>
    decreases |tokens|
  {
    if |tokens| == 0 then [] else Arguments(tokens[0]) + Render(tokens[1..])
  }

  lemma RenderCons(t: Token, tokens: seq<Token>)
    ensures Render([t] + tokens) == Arguments(t) + Render(tokens)
  {
    assert ([t] + tokens)[1..] == tokens;
  }

  /** The name of the last example unit, or `otherwise` when there is none. */
  function LastExampleName(tokens: seq<Token>, otherwise: string): string
    decreases |tokens|
  {
    if |tokens| == 0 then otherwise
    else if tokens[|tokens| - 1].ExampleArgument? then tokens[|tokens| - 1].name
    else LastExampleName(tokens[..|tokens| - 1], otherwise)
  }

  /** The name of the last renderer unit, or `otherwise` when there is none. */
  function LastRendererName(tokens: seq<Token>, otherwise: string): string
    decreases |tokens|
  {
    if |tokens| == 0 then otherwise
    else if tokens[|tokens| - 1].RendererArgument? then tokens[|tokens| - 1].name
    else LastRendererName(tokens[..|tokens| - 1], otherwise)
  }

  lemma {:induction false} LastNamesCons(t: Token, tokens: seq<Token>, exampleName: string, rendererName: string)
    ensures LastExampleName([t] + tokens, exampleName) == LastExampleName(tokens, if t.ExampleArgument? then t.name else exampleName)
    ensures LastRendererName([t] + tokens, rendererName) == LastRendererName(tokens, if t.RendererArgument? then t.name else rendererName)
    decreases |tokens|
  {
    if |tokens| > 0 {
      assert ([t] + tokens)[..|tokens|] == [t] + tokens[..|tokens| - 1];
      LastNamesCons(t, tokens[..|tokens| - 1], exampleName, rendererName);
    }
  }

  /** Splits a command line into units, and says whether a lone `-r` is
      left over at its end. */
  function Tokenize(args: seq<string>): (r: (seq<Token>, bool))
    ensures WellFormed(r.0)
    ensures args == Render(r.0) + (if r.1 then [RENDERER_OPTION] else [])
    decreases |args|
  {
    if |args| == 0 then ([], false)
    else if args[0] != RENDERER_OPTION then
      var rest := Tokenize(args[1..]);
      RenderCons(ExampleArgument(args[0]), rest.0);
      assert args == [args[0]] + args[1..];
      ([ExampleArgument(args[0])] + rest.0, rest.1)
    else if 1 < |args| then
      var rest := Tokenize(args[2..]);
      RenderCons(RendererArgument(args[1]), rest.0);
      assert args == [RENDERER_OPTION, args[1]] + args[2..];
      ([RendererArgument(args[1])] + rest.0, rest.1)
    else ([], true)
  }

  /** A command line spelled out from well-formed units parses to the last
      example and the last renderer it names, or a trailing lone `-r` makes
      the parse fail after reading the same names. */
  lemma {:induction false} ParseRendered(tokens: seq<Token>, trailing: bool, exampleName: string, rendererName: string)
    requires WellFormed(tokens)
    ensures ParseFrom(Render(tokens) + (if trailing then [RENDERER_OPTION] else []), exampleName, rendererName)
      == Parse(LastExampleName(tokens, exampleName), LastRendererName(tokens, rendererName), !trailing)
    decreases |tokens|
  {
    var tail: seq<string> := if trailing then [RENDERER_OPTION] else [];
    if |tokens| == 0 {
      assert Render(tokens) + tail == tail;
    } else {
      var t := tokens[0];
      var rest := tokens[1..];
      assert tokens == [t] + rest;
      assert WellFormed(rest) by {
        assert forall k :: 0 <= k < |rest| ==> rest[k] == tokens[k + 1];
      }
      assert Render(tokens) + tail == Arguments(t) + (Render(rest) + tail);
      var e := if t.ExampleArgument? then t.name else exampleName;
      var r := if t.RendererArgument? then t.name else rendererName;
      ParseRendered(rest, trailing, e, r);
      LastNamesCons(t, rest, exampleName, rendererName);
      var line := Arguments(t) + (Render(rest) + tail);
      if t.ExampleArgument? {
        assert line[0] == t.name && line[0] != RENDERER_OPTION && line[1..] == Render(rest) + tail;
      } else {
        assert line[0] == RENDERER_OPTION && line[1] == t.name && line[2..] == Render(rest) + tail;
      }
    }
  }

  /** Every command line parses as its units say: the last example name and
      the last renderer name win, and the parse is complete unless a lone
      `-r` ends the line. */
  lemma ParseMeaning(args: seq<string>, exampleName: string, rendererName: string)
    ensures var (tokens, trailing) := Tokenize(args);
      ParseFrom(args, exampleName, rendererName) == Parse(LastExampleName(tokens, exampleName), LastRendererName(tokens, rendererName), !trailing)
  {
    var (tokens, trailing) := Tokenize(args);
    ParseRendered(tokens, trailing, exampleName, rendererName);
  }

  /** What `parseCommandLineArguments` leaves in the four names. */
  function Parsed(c: Registry, args: seq<string>, n: Names): Names {
    var p := ParseFrom(args, n.currentExampleName, n.currentRendererName);
    n.(currentExampleName := p.exampleName,
       currentRendererName := if p.complete && p.rendererName == "" then c.defaultRendererName else p.rendererName)
  }

  // Choosing and launching an example

  /** `runExample`'s choice: the example it launches for these names, or
      none, when the example is unknown, the renderer is unknown or the
      example does not list the renderer. An empty example name means the
      default example. */
  function Selection(c: Registry, rendererName: string, exampleName: string): Option<string> {
    var selectedExampleName := if exampleName == "" then c.defaultExampleName else exampleName;
    var rendererNotSupportedByExample :=
      selectedExampleName in c.exampleToSupportedRenderers && rendererName !in c.exampleToSupportedRenderers[selectedExampleName];
    if selectedExampleName !in c.availableExamples || rendererName !in c.availableRenderers || rendererNotSupportedByExample then None
    else Some(selectedExampleName)
  }

  /** A `switchExample` call as the running example makes it; a null
      renderer name is `None`. */
  datatype SwitchRequest = SwitchRequest(exampleName: string, rendererName: Option<string>)

  /** What a launched example does: the value it returns, and the
      `switchExample` calls it makes on the runner, in order. */
  datatype Launch = Launch(result: int, switches: seq<SwitchRequest>)

  /** The examples themselves: what the launch with this number does, for
      the chosen example and renderer. */
  type Examples = (nat, string, string) -> Launch

  /** What `switchExample` leaves in the four names. */
  function Switched(c: Registry, n: Names, request: SwitchRequest): Names {
    n.(nextRendererName := if request.rendererName.Some? then request.rendererName.value else c.defaultRendererName,
       nextExampleName := request.exampleName)
  }

  function SwitchedAll(c: Registry, n: Names, requests: seq<SwitchRequest>): Names
    decreases |requests|
  {
    if |requests| == 0 then n else SwitchedAll(c, Switched(c, n, requests[0]), requests[1..])
  }

  /** Of several `switchExample` calls the last one wins, it names the
      default renderer when it names none, and none of them touches the
      current names. */
  lemma {:induction false} SwitchedAllLast(c: Registry, n: Names, requests: seq<SwitchRequest>)
    ensures var n' := SwitchedAll(c, n, requests);
      && n'.currentExampleName == n.currentExampleName && n'.currentRendererName == n.currentRendererName
      && (|requests| == 0 ==> n' == n)
      && (|requests| > 0 ==>
            var last := requests[|requests| - 1];
            && n'.nextExampleName == last.exampleName
            && n'.nextRendererName == (if last.rendererName.Some? then last.rendererName.value else c.defaultRendererName))
    decreases |requests|
  {
    if |requests| > 0 {
      SwitchedAllLast(c, Switched(c, n, requests[0]), requests[1..]);
      if |requests| > 1 {
        assert requests[1..][|requests[1..]| - 1] == requests[|requests| - 1];
      }
    }
  }

  /** An example launch, by the names of the example and its renderer. */
  datatype Launched = Launched(exampleName: string, rendererName: string)

  /** The names an example may be launched with. */
  predicate Launchable(c: Registry, l: Launched) {
    && l.exampleName in c.availableExamples
    && l.rendererName in c.availableRenderers
    && (l.exampleName in c.exampleToSupportedRenderers ==> l.rendererName in c.exampleToSupportedRenderers[l.exampleName])
  }

  /** What one `runExample` call does: the value it returns, the names it
      leaves, and the launches so far. */
  datatype Step = Step(result: int, names: Names, launched: seq<Launched>)

  function RunExampleStep(c: Registry, examples: Examples, launched: seq<Launched>, rendererName: string, exampleName: string, n: Names): Step {
    match Selection(c, rendererName, exampleName)
    case None => Step(0, n, launched)
    case Some(name) =>
      var l := examples(|launched|, name, rendererName);
      Step(l.result, SwitchedAll(c, n, l.switches), launched + [Launched(name, rendererName)])
  }

  /** `runExample` launches exactly when the names select an example, and
      then launches that example (the default one for an empty name) with
      that renderer; otherwise it returns 0 and changes nothing. */
  lemma RunExampleStepMeaning(c: Registry, examples: Examples, launched: seq<Launched>, rendererName: string, exampleName: string, n: Names)
    ensures var s := RunExampleStep(c, examples, launched, rendererName, exampleName, n);
      var name := if exampleName == "" then c.defaultExampleName else exampleName;
      && (|s.launched| == |launched| + 1 <==> Launchable(c, Launched(name, rendererName)))
      && (|s.launched| == |launched| + 1 ==> s.launched == launched + [Launched(name, rendererName)] && s.result == examples(|launched|, name, rendererName).result)
      && (|s.launched| != |launched| + 1 ==> s == Step(0, n, launched))
  {
  }

  // The run loop

  datatype RunOutcome = Exited(code: int) | OutOfFuel

  /** The end of a run: how it ended, the four names, and every launch. */
  datatype Finish = Finish(outcome: RunOutcome, names: Names, launched: seq<Launched>)

  /** The run loop for at most `fuel` more `runExample` calls: a result of 0
      with both next names set switches to them and goes on; any other
      result other than 0 runs the current names again; 0 ends the run. */
  function RunLoop(c: Registry, examples: Examples, fuel: nat, launched: seq<Launched>, n: Names): Finish
    decreases fuel
  {
    if fuel == 0 then Finish(OutOfFuel, n, launched)
    else
      var s := RunExampleStep(c, examples, launched, n.currentRendererName, n.currentExampleName, n);
      if s.result == 0 && s.names.nextRendererName != "" && s.names.nextExampleName != "" then
        RunLoop(c, examples, fuel - 1, s.launched, Names(s.names.nextExampleName, s.names.nextRendererName, "", ""))
      else if s.result != 0 then RunLoop(c, examples, fuel - 1, s.launched, s.names)
      else Finish(Exited(0), s.names, s.launched)
  }

  /** `run`: parse the command line, then loop. */
  function RunAll(c: Registry, examples: Examples, fuel: nat, args: seq<string>, n: Names): Finish {
    var n' := Parsed(c, args, n);
    if !ParseFrom(args, n.currentExampleName, n.currentRendererName).complete then Finish(Exited(-1), n', [])
    else RunLoop(c, examples, fuel, [], n')
  }

  /** The loop only ever exits with 0, leaves no complete switch pending when
      it does, keeps the launches it started from, and launches only
      examples on renderers they can run on. */
  lemma {:induction false} RunLoopInvariant(c: Registry, examples: Examples, fuel: nat, launched: seq<Launched>, n: Names)
    ensures var f := RunLoop(c, examples, fuel, launched, n);
      && (f.outcome.Exited? ==> f.outcome.code == 0 && (f.names.nextExampleName == "" || f.names.nextRendererName == ""))
      && |launched| <= |f.launched| && f.launched[..|launched|] == launched
      && forall k :: |launched| <= k < |f.launched| ==> Launchable(c, f.launched[k])
    decreases fuel
  {
    if fuel > 0 {
      var s := RunExampleStep(c, examples, launched, n.currentRendererName, n.currentExampleName, n);
      RunExampleStepMeaning(c, examples, launched, n.currentRendererName, n.currentExampleName, n);
      if s.result == 0 && s.names.nextRendererName != "" && s.names.nextExampleName != "" {
        RunLoopInvariant(c, examples, fuel - 1, s.launched, Names(s.names.nextExampleName, s.names.nextRendererName, "", ""));
      } else if s.result != 0 {
        RunLoopInvariant(c, examples, fuel - 1, s.launched, s.names);
      }
      var f := RunLoop(c, examples, fuel, launched, n);
      assert |launched| <= |s.launched| && s.launched[..|launched|] == launched;
      assert f.launched[..|s.launched|] == s.launched;
      assert f.launched[..|launched|] == launched by {
        assert f.launched[..|launched|] == f.launched[..|s.launched|][..|launched|];
      }
    }
  }

  /** `run` returns -1 exactly when the command line is malformed, and then
      launches nothing; otherwise, when it returns, it returns 0, and every
      example it launched could run on the renderer it was given. */
  lemma RunExitCode(c: Registry, examples: Examples, fuel: nat, args: seq<string>, n: Names)
    ensures var f := RunAll(c, examples, fuel, args, n);
      var complete := ParseFrom(args, n.currentExampleName, n.currentRendererName).complete;
      && (!complete ==> f.outcome == Exited(-1) && f.launched == [])
      && (complete && f.outcome.Exited? ==> f.outcome.code == 0)
      && forall k :: 0 <= k < |f.launched| ==> Launchable(c, f.launched[k])
  {
    if ParseFrom(args, n.currentExampleName, n.currentRendererName).complete {
      RunLoopInvariant(c, examples, fuel, [], Parsed(c, args, n));
    }
  }

  /** A result other than 0 launches the same example on the same renderer
      again, a switch clears both next names, and a run that was asked for
      no switch ends after its first launch returns 0. */
  lemma RunLoopStep(c: Registry, examples: Examples, fuel: nat, launched: seq<Launched>, n: Names)
    requires fuel > 0
    requires Launchable(c, Launched(if n.currentExampleName == "" then c.defaultExampleName else n.currentExampleName, n.currentRendererName))
    ensures var name := if n.currentExampleName == "" then c.defaultExampleName else n.currentExampleName;
      var l := examples(|launched|, name, n.currentRendererName);
      var n' := SwitchedAll(c, n, l.switches);
      var f := RunLoop(c, examples, fuel, launched, n);
      && (l.result != 0 ==> f == RunLoop(c, examples, fuel - 1, launched + [Launched(name, n.currentRendererName)], n'))
      && (l.result == 0 && n'.nextExampleName != "" && n'.nextRendererName != "" ==>
            f == RunLoop(c, examples, fuel - 1, launched + [Launched(name, n.currentRendererName)], Names(n'.nextExampleName, n'.nextRendererName, "", "")))
      && (l.result == 0 && |l.switches| == 0 && (n.nextExampleName == "" || n.nextRendererName == "") ==>
            f == Finish(Exited(0), n, launched + [Launched(name, n.currentRendererName)]))
  {
    var name := if n.currentExampleName == "" then c.defaultExampleName else n.currentExampleName;
    RunExampleStepMeaning(c, examples, launched, n.currentRendererName, n.currentExampleName, n);
    var l := examples(|launched|, name, n.currentRendererName);
    SwitchedAllLast(c, n, l.switches);
  }

  /** Linear search of a renderer list (`std::find`). */
  method Find(list: seq<string>, value: string) returns (found: bool)
    ensures found <==> value in list
  {
    var i := 0;
    while i < |list|
      invariant 0 <= i <= |list|
      invariant value !in list[..i]
    {
      if list[i] == value {
        return true;
      }
      assert list[..i + 1] == list[..i] + [list[i]];
      i := i + 1;
    }
    assert list[..i] == list;
    return false;
  }

  /** `ExampleRunner`: the registry the constructor builds and the four
      names the command line, the running examples and the run loop
      update. */
  class Runner {
    const defaultRendererName: string
    const defaultExampleName: string
    const availableExamples: set<string>
    const exampleToSupportedRenderers: map<string, seq<string>>
    const availableRenderers: set<string>
    var currentExampleName: string
    var currentRendererName: string
    var nextExampleName: string
    var nextRendererName: string

    /** The registry the constructor built. */
    function Table(): Registry {
      Registry(defaultRendererName, defaultExampleName, availableExamples, exampleToSupportedRenderers, availableRenderers)
    }

    /** The four names as they stand. */
    function State(): Names
      reads this
    {
      Names(currentExampleName, currentRendererName, nextExampleName, nextRendererName)
    }

    /** Registers the build's examples and renderers, with the corrected
        default example; all names start empty. */
    constructor (b: Build)
      ensures Table() == BuildRegistry(b)
      ensures State() == Names("", "", "", "")
    {
      defaultRendererName := DefaultRendererName(b);
      defaultExampleName := DefaultExampleName(b);
      availableExamples := ExampleNames(b);
      exampleToSupportedRenderers := SupportTable(b);
      availableRenderers := AvailableRenderers(b);
      currentExampleName := "";
      currentRendererName := "";
      nextExampleName := "";
      nextRendererName := "";
    }

    /** `switchExample`: names the example to run once the current one
        returns 0; no renderer name means the default renderer. */
    method SwitchExample(exampleName: string, rendererName: Option<string>)
      modifies this
      ensures State() == Switched(Table(), old(State()), SwitchRequest(exampleName, rendererName))
    {
      nextRendererName := if rendererName.Some? then rendererName.value else defaultRendererName;
      nextExampleName := exampleName;
    }

    /** `parseCommandLineArguments`: reads the example and renderer names;
        false when `-r` ends the line. */
    method ParseCommandLineArguments(args: seq<string>) returns (ok: bool)
      modifies this
      ensures ok == ParseFrom(args, old(currentExampleName), old(currentRendererName)).complete
      ensures State() == Parsed(Table(), args, old(State()))
    {
      var argumentIndex := 0;
      while argumentIndex < |args|
        invariant 0 <= argumentIndex <= |args|
        invariant ParseFrom(args, old(currentExampleName), old(currentRendererName)) == ParseFrom(args[argumentIndex..], currentExampleName, currentRendererName)
        invariant nextExampleName == old(nextExampleName) && nextRendererName == old(nextRendererName)
      {
        var argument := args[argumentIndex];
        assert args[argumentIndex..][1..] == args[argumentIndex + 1..];
        if argument != RENDERER_OPTION {
          currentExampleName := argument;
        } else if argumentIndex + 1 < |args| {
          assert args[argumentIndex..][2..] == args[argumentIndex + 2..];
          argumentIndex := argumentIndex + 1;
          currentRendererName := args[argumentIndex];
        } else {
          return false;
        }
        argumentIndex := argumentIndex + 1;
      }
      if currentRendererName == "" {
        currentRendererName := defaultRendererName;
      }
      return true;
    }

    /** `runExample`: launches the selected example, which may ask the
        runner to switch, or returns 0 when there is nothing to launch.
        `launches` numbers the launch; `launched` records them all. */
    method RunExample(examples: Examples, launches: nat, ghost launched: seq<Launched>, rendererName: string, exampleName: string)
      returns (result: int, launches': nat, ghost launched': seq<Launched>)
      requires launches == |launched|
      modifies this
      ensures var s := RunExampleStep(Table(), examples, launched, rendererName, exampleName, old(State()));
        result == s.result && State() == s.names && launched' == s.launched && launches' == |launched'|
    {
      var rendererKnown := rendererName in availableRenderers;
      var selectedExampleName := if exampleName == "" then defaultExampleName else exampleName;
      var exampleKnown := selectedExampleName in availableExamples;
      var rendererNotSupportedByExample := false;
      if selectedExampleName in exampleToSupportedRenderers {
        var found := Find(exampleToSupportedRenderers[selectedExampleName], rendererName);
        rendererNotSupportedByExample := !found;
      }
      if !exampleKnown || !rendererKnown || rendererNotSupportedByExample {
        return 0, launches, launched;
      }
      var launch := examples(launches, selectedExampleName, rendererName);
      var i := 0;
      while i < |launch.switches|
        invariant 0 <= i <= |launch.switches|
        invariant SwitchedAll(Table(), old(State()), launch.switches) == SwitchedAll(Table(), State(), launch.switches[i..])
      {
        assert launch.switches[i..][1..] == launch.switches[i + 1..];
        SwitchExample(launch.switches[i].exampleName, launch.switches[i].rendererName);
        i := i + 1;
      }
      result := launch.result;
      launches' := launches + 1;
      launched' := launched + [Launched(selectedExampleName, rendererName)];
    }

    /** `run`: -1 for a malformed command line; otherwise launches and
        switches examples until one returns 0 without asking for a switch,
        or until `fuel` launches have been attempted. */
    method Run(examples: Examples, fuel: nat, args: seq<string>) returns (outcome: RunOutcome)
      modifies this
      ensures var f := RunAll(Table(), examples, fuel, args, old(State()));
        outcome == f.outcome && State() == f.names
    {
      var ok := ParseCommandLineArguments(args);
      if !ok {
        return Exited(-1);
      }
      ghost var launched: seq<Launched> := [];
      var launches := 0;
      var fuelLeft := fuel;
      while true
        invariant launches == |launched|
        invariant RunAll(Table(), examples, fuel, args, old(State())) == RunLoop(Table(), examples, fuelLeft, launched, State())
        decreases fuelLeft
      {
        if fuelLeft == 0 {
          return OutOfFuel;
        }
        var result;
        result, launches, launched := RunExample(examples, launches, launched, currentRendererName, currentExampleName);
        if result == 0 && nextRendererName != "" && nextExampleName != "" {
          currentRendererName := nextRendererName;
          currentExampleName := nextExampleName;
          nextRendererName := "";
          nextExampleName := "";
          result := 1;
        }
        fuelLeft := fuelLeft - 1;
        if result == 0 {
          return Exited(result);
        }
      }
    }
  }
}
