/**
The planner that decides whether a preview may reuse the quantized and cleaned planes of an
earlier one (src/image23mf/processing.py:1795-2009, src/image23mf/invalidation.py:16-50).

Fingerprints are the values they are taken of, so equal fingerprints mean equal values.
*/
module PreviewPlan {
  import opened Wrappers
  import opened Interior
  import opened Identifiers

  /** The parts of a job configuration that the planner tells apart; `other` is all the rest. */
  datatype Config = Config(
    source: Id,
    crop: nat,
    canvas: nat,
    palette: nat,
    cleanup: nat,
    printer: nat,
    other: nat)

  datatype Component = Source | Crop | Palette | Cleanup

  /** `_component_fingerprints`. */
  function Components(config: Config): map<Component, seq<nat>> {
    map[Source := [config.source],
        Crop := [config.crop, config.canvas],
        Palette := [config.palette],
        Cleanup := [config.cleanup, config.printer]]
  }

  datatype EditKind = Fill | ColorCleanup | Morphology | Clone | Affine

  datatype Command =
    | LocalRasterEdit(kind: EditKind, selection: nat, details: nat)
    | OtherCommand(details: nat)

  /** The engine and adapter versions of the running code. */
  datatype Version = Version(engine: nat, adapters: nat)

  /** The catalogs a preview was computed against, by fingerprint. */
  datatype Dependencies = Dependencies(profiles: nat, printability: nat)

  /** `_ReprocessingBaseline`, without the planes that only the reuse itself reads. */
  datatype Baseline = Baseline(
    jobId: Id,
    config: Config,
    components: map<Component, seq<nat>>,
    version: Version,
    dependencies: Dependencies,
    commands: seq<Command>,
    labels: Plane,
    active: Plane)

  datatype Reason =
    | NoBaseline | LocalInteriorEdit | PaletteChanged | CropChanged | CleanupChanged
    | BoundaryEdit | EngineChanged | OperationsChanged

  datatype Stage = Quantization | AutomaticCleanup | EditorReplay | Analysis

  datatype Plan = Plan(
    scoped: bool,
    reason: Reason,
    baseline: Option<Id>,
    reused: seq<Stage>,
    recomputed: seq<Stage>,
    affected: nat)

  /** A rasterized selection: its mask and how many pixels it covers. */
  datatype Raster = Raster(mask: Plane, count: nat)

  function Blank(width: nat, height: nat): Plane {
    seq(width * height, _ => 0)
  }

  function FullPlan(baseline: Option<Baseline>, reason: Reason): Plan {
    Plan(false, reason, if baseline.Some? then Some(baseline.value.jobId) else None, [],
         [Quantization, AutomaticCleanup, EditorReplay, Analysis], 0)
  }

  // The first component, in the order of the loop, whose fingerprint is not the recorded one.
  function ChangedComponent(recorded: map<Component, seq<nat>>, config: Config): Option<Reason> {
    var current := Components(config);
    if Source !in recorded || recorded[Source] != current[Source] then Some(CropChanged)
    else if Crop !in recorded || recorded[Crop] != current[Crop] then Some(CropChanged)
    else if Palette !in recorded || recorded[Palette] != current[Palette] then Some(PaletteChanged)
    else if Cleanup !in recorded || recorded[Cleanup] != current[Cleanup] then Some(CleanupChanged)
    else None
  }

  predicate AppendsOne(prior: seq<Command>, commands: seq<Command>) {
    |commands| == |prior| + 1 && commands[..|prior|] == prior
  }

  predicate IsLocalRecolor(command: Command) {
    command.LocalRasterEdit? && (command.kind.Fill? || command.kind.ColorCleanup?)
  }

  /** `_plan_reprocessing`; `rasterize` is `rasterize_canvas_selection`, None when it raises. */
  function PlanReprocessing(
    baseline: Option<Baseline>, config: Config, commands: seq<Command>, version: Version, dependencies: Dependencies,
    rasterize: nat -> Option<Raster>, width: nat, height: nat): (Plan, Plane)
  {
    var blank := Blank(width, height);
    if baseline.None? then (FullPlan(baseline, NoBaseline), blank)
    else if baseline.value.version != version || baseline.value.dependencies != dependencies then
      (FullPlan(baseline, EngineChanged), blank)
    else if ChangedComponent(baseline.value.components, config).Some? then
      (FullPlan(baseline, ChangedComponent(baseline.value.components, config).value), blank)
    else if baseline.value.config != config then (FullPlan(baseline, CleanupChanged), blank)
    else if !AppendsOne(baseline.value.commands, commands) then (FullPlan(baseline, OperationsChanged), blank)
    else
      var command := commands[|commands| - 1];
      if !IsLocalRecolor(command) then (FullPlan(baseline, BoundaryEdit), blank)
      else
        var selection := rasterize(command.selection);
        if selection.None? then (FullPlan(baseline, BoundaryEdit), blank)
        else if !IsStrictlyInterior(selection.value.mask, baseline.value.labels, baseline.value.active, width,
                                    height) then
          (FullPlan(baseline, BoundaryEdit), blank)
        else
          (Plan(true, LocalInteriorEdit, Some(baseline.value.jobId), [Quantization, AutomaticCleanup],
                [EditorReplay, Analysis], selection.value.count),
           selection.value.mask)
  }

  /** `scoped_work_has_a_baseline`, and that every stage is either reused or recomputed. */
  predicate WellFormed(plan: Plan) {
    && (plan.scoped ==> plan.baseline.Some? && plan.reused != [])
    && (!plan.scoped ==> plan.reused == [])
    && plan.reused + plan.recomputed == [Quantization, AutomaticCleanup, EditorReplay, Analysis]
  }

  lemma EveryPlanIsWellFormed(
    baseline: Option<Baseline>, config: Config, commands: seq<Command>, version: Version, dependencies: Dependencies,
    rasterize: nat -> Option<Raster>, width: nat, height: nat)
    ensures var (plan, mask) := PlanReprocessing(baseline, config, commands, version, dependencies, rasterize, width,
                                                 height);
      && WellFormed(plan)
      && (!plan.scoped ==> |mask| == width * height && forall p :: 0 <= p < width * height ==> mask[p] == 0)
  {
  }

  // What recorded evidence says about its own configuration: the component map is the config's.
  predicate Honest(baseline: Baseline) {
    baseline.components == Components(baseline.config)
  }

  /**
  With honest evidence, work is scoped exactly when nothing changed but one appended fill or
  color cleanup whose selection lies strictly inside a region of the earlier result. A scoped plan
  names that baseline, the selection and its pixels. The checks of single components decide the
  reason that is reported, never the mode.
  */
  lemma ScopedExactly(
    baseline: Option<Baseline>, config: Config, commands: seq<Command>, version: Version, dependencies: Dependencies,
    rasterize: nat -> Option<Raster>, width: nat, height: nat)
    requires baseline.Some? ==> Honest(baseline.value)
    ensures var (plan, mask) := PlanReprocessing(baseline, config, commands, version, dependencies, rasterize, width,
                                                 height);
      plan.scoped <==> (
        && baseline.Some?
        && baseline.value.version.engine == version.engine && baseline.value.version.adapters == version.adapters
        && baseline.value.dependencies.profiles == dependencies.profiles
        && baseline.value.dependencies.printability == dependencies.printability
        && baseline.value.config == config
        && |commands| == |baseline.value.commands| + 1
        && (forall i :: 0 <= i < |baseline.value.commands| ==> commands[i] == baseline.value.commands[i])
        && match commands[|commands| - 1]
           case OtherCommand(_) => false
           case LocalRasterEdit(kind, selection, _) =>
             && (kind == Fill || kind == ColorCleanup)
             && rasterize(selection).Some?
             && IsStrictlyInterior(rasterize(selection).value.mask, baseline.value.labels, baseline.value.active,
                                   width, height))
    ensures var (plan, mask) := PlanReprocessing(baseline, config, commands, version, dependencies, rasterize, width,
                                                 height);
      plan.scoped ==>
        && baseline.Some? && |commands| > 0 && commands[|commands| - 1].LocalRasterEdit?
        && rasterize(commands[|commands| - 1].selection).Some?
        && var raster := rasterize(commands[|commands| - 1].selection).value;
        && plan.baseline == Some(baseline.value.jobId) && plan.affected == raster.count && mask == raster.mask
        && plan.reused == [Quantization, AutomaticCleanup] && plan.recomputed == [EditorReplay, Analysis]
  {
    if baseline.Some? {
      AppendsOneExactly(baseline.value.commands, commands);
    }
  }

  lemma AppendsOneExactly(prior: seq<Command>, commands: seq<Command>)
    ensures AppendsOne(prior, commands)
       <==> |commands| == |prior| + 1 && forall i :: 0 <= i < |prior| ==> commands[i] == prior[i]
  {
  }

  /** Everything that the engine, its adapters and the catalogs decide is as it was. */
  predicate SameEngine(baseline: Baseline, version: Version, dependencies: Dependencies) {
    && baseline.version.engine == version.engine && baseline.version.adapters == version.adapters
    && baseline.dependencies.profiles == dependencies.profiles
    && baseline.dependencies.printability == dependencies.printability
  }

  /** The same source image at the same place on the same canvas. */
  predicate SameFrame(a: Config, b: Config) {
    a.source == b.source && a.crop == b.crop && a.canvas == b.canvas
  }

  /**
  And the reason tells what changed: with honest evidence each is reported exactly in its own case,
  and every plan but the scoped one recomputes all stages.
  */
  lemma ReasonsExactly(
    baseline: Baseline, config: Config, commands: seq<Command>, version: Version, dependencies: Dependencies,
    rasterize: nat -> Option<Raster>, width: nat, height: nat)
    requires Honest(baseline)
    ensures var (plan, mask) := PlanReprocessing(Some(baseline), config, commands, version, dependencies, rasterize,
                                                 width, height);
      && (plan.reason.EngineChanged? <==> !SameEngine(baseline, version, dependencies))
      && (plan.reason.CropChanged? <==>
            SameEngine(baseline, version, dependencies) && !SameFrame(baseline.config, config))
      && (plan.reason.PaletteChanged? <==>
            && SameEngine(baseline, version, dependencies) && SameFrame(baseline.config, config)
            && baseline.config.palette != config.palette)
      && (plan.reason.CleanupChanged? <==>
            && SameEngine(baseline, version, dependencies) && SameFrame(baseline.config, config)
            && baseline.config.palette == config.palette && baseline.config != config)
      && (plan.reason.OperationsChanged? <==>
            && SameEngine(baseline, version, dependencies) && baseline.config == config
            && !(|commands| == |baseline.commands| + 1 && baseline.commands <= commands))
      && (plan.reason.BoundaryEdit? <==>
            && SameEngine(baseline, version, dependencies) && baseline.config == config
            && |commands| == |baseline.commands| + 1 && baseline.commands <= commands && !plan.scoped)
      && (plan.reason.LocalInteriorEdit? <==> plan.scoped)
    ensures var (plan, mask) := PlanReprocessing(Some(baseline), config, commands, version, dependencies, rasterize,
                                                 width, height);
      !plan.scoped ==>
        && plan.baseline == Some(baseline.jobId) && plan.affected == 0 && mask == Blank(width, height)
        && plan.reused == [] && plan.recomputed == [Quantization, AutomaticCleanup, EditorReplay, Analysis]
  {
    AppendsOneExactly(baseline.commands, commands);
  }

  /** Without a baseline there is nothing to compare with. */
  lemma NoBaselineExactly(
    baseline: Option<Baseline>, config: Config, commands: seq<Command>, version: Version, dependencies: Dependencies,
    rasterize: nat -> Option<Raster>, width: nat, height: nat)
    ensures var (plan, _) := PlanReprocessing(baseline, config, commands, version, dependencies, rasterize, width,
                                              height);
      plan.reason.NoBaseline? <==> baseline.None?
  {
  }
}
