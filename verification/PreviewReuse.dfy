/**
Incremental previews agree with full ones: whatever is reused, a preview stores the planes that
the unconditional pipeline stores (src/image23mf/processing.py:395-465, 962-1091, 1827-1908).
*/
module PreviewReuse {
  import opened Wrappers
  import opened Identifiers
  import opened Interior
  import opened PreviewPlan

  datatype Transform = Transform(width: nat, height: nat, details: nat)

  datatype Rendered = Rendered(pixels: Plane, transform: Transform)

  datatype Quantized = Quantized(labels: Plane, alpha: Plane, palette: nat, options: nat)

  datatype Cleaned = Cleaned(labels: Plane, active: Plane, changed: Plane, record: nat)

  datatype Processed = Processed(labels: Plane, active: Plane)

  /**
  The image engines, each a function of what the preview passes to it and of the code's version.
  `None` stands for an exception out of the replay or out of the rasterization.
  */
  datatype Engines = Engines(
    render: (Version, Plane, Config, nat) -> Rendered,
    classify: (Version, Rendered, nat) -> Quantized,
    resolve: (Config, nat) -> nat,
    cleanup: (Version, Quantized, Config, nat) -> Cleaned,
    replay: (Version, Cleaned, Config, seq<Command>, Transform) -> Option<Processed>,
    rasterize: (nat, Transform) -> Option<Raster>)

  datatype Output = Output(quantized: Quantized, cleaned: Cleaned, processed: Processed)

  /** What one preview is asked to compute, and with which code and catalogs. */
  datatype Request = Request(config: Config, commands: seq<Command>, version: Version, dependencies: Dependencies)

  /** The artifacts of a succeeded preview: its planes and the evidence written beside them. */
  datatype Record = Record(request: Request, components: map<Component, seq<nat>>, output: Output)

  function RenderedOf(e: Engines, source: Plane, q: Request): Rendered {
    e.render(q.version, source, q.config, q.dependencies.profiles)
  }

  function QuantizedOf(e: Engines, source: Plane, q: Request): Quantized {
    e.classify(q.version, RenderedOf(e, source, q), q.config.palette)
  }

  function CleanedOf(e: Engines, source: Plane, q: Request): Cleaned {
    e.cleanup(q.version, QuantizedOf(e, source, q), q.config, e.resolve(q.config, q.dependencies.printability))
  }

  /** The unconditional pipeline. */
  function FullPipeline(e: Engines, source: Plane, q: Request): Option<Output> {
    var rendered := RenderedOf(e, source, q);
    var cleaned := CleanedOf(e, source, q);
    var processed := e.replay(q.version, cleaned, q.config, q.commands, rendered.transform);
    if processed.None? then None else Some(Output(QuantizedOf(e, source, q), cleaned, processed.value))
  }

  /** How reading the evidence of the chosen baseline ends. */
  datatype Evidence =
    | Readable                 // all required artifacts are there and verify
    | Incomplete               // missing, malformed or stale: treated as no baseline
    | Unreadable               // any other exception: the preview fails

  function BaselineOf(jobId: Id, record: Record): Baseline {
    Baseline(jobId, record.request.config, record.components, record.request.version, record.request.dependencies,
             record.request.commands, record.output.processed.labels, record.output.processed.active)
  }

  function PlanFor(e: Engines, rendered: Rendered, q: Request, baseline: Option<Baseline>): (Plan, Plane) {
    PlanReprocessing(baseline, q.config, q.commands, q.version, q.dependencies,
                     (selection: nat) => e.rasterize(selection, rendered.transform),
                     rendered.transform.width, rendered.transform.height)
  }

  /** What `_load_reprocessing_baseline` returns; the exceptions it swallows count as no baseline. */
  function LoadBaseline(records: map<Id, Record>, baselineJob: Option<Id>, evidence: Evidence): Option<Baseline> {
    if baselineJob.Some? && baselineJob.value in records && evidence.Readable?
    then Some(BaselineOf(baselineJob.value, records[baselineJob.value])) else None
  }

  // Evidence that raises anything but a malformed-value error takes the preview down with it.
  predicate LoadFails(records: map<Id, Record>, baselineJob: Option<Id>, evidence: Evidence) {
    baselineJob.Some? && baselineJob.value in records && evidence.Unreadable?
  }

  /** The `work` of one preview: the record it stores, or None when it raises. */
  function Preview(e: Engines, sources: map<Id, Plane>, records: map<Id, Record>, q: Request,
                   baselineJob: Option<Id>, evidence: Evidence): Option<Record>
  {
    if LoadFails(records, baselineJob, evidence) || q.config.source !in sources then None
    else
      var source := sources[q.config.source];
      var rendered := RenderedOf(e, source, q);
      var baseline := LoadBaseline(records, baselineJob, evidence);
      var scoped := PlanFor(e, rendered, q, baseline).0.scoped && baseline.Some?;
      var quantized := if scoped then records[baselineJob.value].output.quantized
                       else e.classify(q.version, rendered, q.config.palette);
      var cleaned := if scoped then records[baselineJob.value].output.cleaned
                     else e.cleanup(q.version, quantized, q.config, e.resolve(q.config, q.dependencies.printability));
      var processed := e.replay(q.version, cleaned, q.config, q.commands, rendered.transform);
      if processed.None? then None
      else Some(Record(q, Components(q.config), Output(quantized, cleaned, processed.value)))
  }

  /** A stored record is what the pipeline gives for its own request, and its evidence is honest. */
  ghost predicate Exact(e: Engines, sources: map<Id, Plane>, record: Record) {
    && record.request.config.source in sources
    && FullPipeline(e, sources[record.request.config.source], record.request) == Some(record.output)
    && record.components == Components(record.request.config)
  }

  ghost predicate AllExact(e: Engines, sources: map<Id, Plane>, records: map<Id, Record>) {
    forall j :: j in records ==> Exact(e, sources, records[j])
  }

  /** When work is scoped, the reused planes are the ones this request would compute. */
  lemma ReusedPlanesAreCurrent(e: Engines, source: Plane, sources: map<Id, Plane>, records: map<Id, Record>, q: Request,
                               baselineJob: Option<Id>, evidence: Evidence)
    requires AllExact(e, sources, records) && q.config.source in sources && source == sources[q.config.source]
    requires LoadBaseline(records, baselineJob, evidence).Some?
    requires PlanFor(e, RenderedOf(e, source, q), q, LoadBaseline(records, baselineJob, evidence)).0.scoped
    ensures records[baselineJob.value].output.quantized == QuantizedOf(e, source, q)
    ensures records[baselineJob.value].output.cleaned == CleanedOf(e, source, q)
  {
    var earlier := records[baselineJob.value];
    assert Exact(e, sources, earlier);
    assert earlier.request.config == q.config && earlier.request.version == q.version;
    assert earlier.request.dependencies == q.dependencies;
  }

  /**
  A preview is planned as scoped work exactly when its baseline can be read, nothing but one appended
  fill or color cleanup is new, and the edit lies strictly inside a region of the stored result.
  */
  lemma JobScopedExactly(e: Engines, sources: map<Id, Plane>, records: map<Id, Record>, rendered: Rendered, q: Request,
                         baselineJob: Option<Id>, evidence: Evidence)
    requires AllExact(e, sources, records)
    ensures PlanFor(e, rendered, q, LoadBaseline(records, baselineJob, evidence)).0.scoped <==> (
      && baselineJob.Some? && baselineJob.value in records && evidence == Readable
      && var earlier := records[baselineJob.value];
      && earlier.request.config == q.config && earlier.request.version == q.version
      && earlier.request.dependencies == q.dependencies
      && |q.commands| == |earlier.request.commands| + 1 && earlier.request.commands <= q.commands
      && match q.commands[|q.commands| - 1]
         case OtherCommand(_) => false
         case LocalRasterEdit(kind, selection, _) =>
           && (kind == Fill || kind == ColorCleanup)
           && e.rasterize(selection, rendered.transform).Some?
           && IsStrictlyInterior(e.rasterize(selection, rendered.transform).value.mask,
                                 earlier.output.processed.labels, earlier.output.processed.active,
                                 rendered.transform.width, rendered.transform.height))
  {
    var baseline := LoadBaseline(records, baselineJob, evidence);
    if baseline.Some? { assert Exact(e, sources, records[baselineJob.value]); }
    var rasterize := (selection: nat) => e.rasterize(selection, rendered.transform);
    ScopedExactly(baseline, q.config, q.commands, q.version, q.dependencies, rasterize, rendered.transform.width,
                  rendered.transform.height);
  }

  /**
  One preview against any exact earlier preview, its evidence readable, incomplete or unreadable:
  it stores what the unconditional pipeline stores, and fails only when that pipeline fails or the
  chosen baseline cannot be read at all.
  */
  lemma PreviewIsTheFullPipeline(e: Engines, sources: map<Id, Plane>, records: map<Id, Record>, q: Request,
                                 baselineJob: Option<Id>, evidence: Evidence)
    requires AllExact(e, sources, records)
    ensures Preview(e, sources, records, q, baselineJob, evidence) ==
      if LoadFails(records, baselineJob, evidence) || q.config.source !in sources
         || FullPipeline(e, sources[q.config.source], q).None? then None
      else Some(Record(q, Components(q.config), FullPipeline(e, sources[q.config.source], q).value))
  {
    if !LoadFails(records, baselineJob, evidence) && q.config.source in sources {
      var source := sources[q.config.source];
      var baseline := LoadBaseline(records, baselineJob, evidence);
      if baseline.Some? && PlanFor(e, RenderedOf(e, source, q), q, baseline).0.scoped {
        ReusedPlanesAreCurrent(e, source, sources, records, q, baselineJob, evidence);
      }
    }
  }

  /** One preview request as the service starts it. */
  datatype Attempt = Attempt(job: Id, q: Request, baselineJob: Option<Id>, evidence: Evidence)

  /** The store after a sequence of previews; a job that fails stores nothing. */
  function After(e: Engines, sources: map<Id, Plane>, attempts: seq<Attempt>): map<Id, Record> {
    if attempts == [] then map[]
    else
      var earlier := After(e, sources, attempts[..|attempts| - 1]);
      var a := attempts[|attempts| - 1];
      var record := Preview(e, sources, earlier, a.q, a.baselineJob, a.evidence);
      if record.Some? && a.job !in earlier then earlier[a.job := record.value] else earlier
  }

  /**
  Over any sequence of previews, with configurations, edits, catalogs and code versions changing
  in any way, and each planned against any earlier one, which may itself have been scoped: every
  stored preview holds exactly the planes of the full pipeline on its own request.
  */
  lemma {:induction false} EveryPreviewIsExact(e: Engines, sources: map<Id, Plane>, attempts: seq<Attempt>)
    ensures AllExact(e, sources, After(e, sources, attempts))
  {
    if attempts != [] {
      var earlier := After(e, sources, attempts[..|attempts| - 1]);
      var a := attempts[|attempts| - 1];
      EveryPreviewIsExact(e, sources, attempts[..|attempts| - 1]);
      PreviewIsTheFullPipeline(e, sources, earlier, a.q, a.baselineJob, a.evidence);
    }
  }

  /** The jobs and their artifacts, as far as previews use them. Source images never change. */
  class PreviewJobs {
    const e: Engines
    const sources: map<Id, Plane>
    var records: map<Id, Record>

    /** Every stored preview holds the planes of the full pipeline on its own request. */
    ghost predicate Valid()
      reads this`records
    {
      AllExact(e, sources, records)
    }

    constructor (e: Engines, sources: map<Id, Plane>)
      ensures this.e == e && this.sources == sources && records == map[]
      ensures Valid()
    {
      this.e, this.sources, records := e, sources, map[];
    }

    /**
    One preview job, from the baseline it was given to the artifacts it stores. Whatever it reuses,
    it stores what the unconditional pipeline gives, and fails only with it or with its evidence.
    */
    method RunPreview(job: Id, q: Request, baselineJob: Option<Id>, evidence: Evidence) returns (succeeded: bool)
      requires Valid() && job !in records
      modifies this`records
      ensures Valid()
      ensures succeeded <==>
                && !(baselineJob.Some? && baselineJob.value in old(records) && evidence.Unreadable?)
                && q.config.source in sources
                && FullPipeline(e, sources[q.config.source], q).Some?
      ensures succeeded ==>
                && records.Keys == old(records).Keys + {job}
                && (forall other :: other in old(records) ==> records[other] == old(records)[other])
                && records[job].request == q
                && records[job].output == FullPipeline(e, sources[q.config.source], q).value
      // The evidence for the next preview tells what this one was computed from.
      ensures succeeded ==>
                && records[job].components.Keys == {Source, Crop, Palette, Cleanup}
                && records[job].components[Source] == [q.config.source]
                && records[job].components[Crop] == [q.config.crop, q.config.canvas]
                && records[job].components[Palette] == [q.config.palette]
                && records[job].components[Cleanup] == [q.config.cleanup, q.config.printer]
      ensures !succeeded ==> records == old(records)
    {
      if LoadFails(records, baselineJob, evidence) || q.config.source !in sources { return false; }
      var source := sources[q.config.source];
      var rendered := e.render(q.version, source, q.config, q.dependencies.profiles);
      var baseline := LoadBaseline(records, baselineJob, evidence);
      var (plan, mask) := PlanFor(e, rendered, q, baseline);
      var quantized, cleaned;
      if plan.scoped && baseline.Some? {
        ReusedPlanesAreCurrent(e, source, sources, records, q, baselineJob, evidence);
        var earlier := records[baseline.value.jobId];
        quantized, cleaned := earlier.output.quantized, earlier.output.cleaned;
      } else {
        quantized := e.classify(q.version, rendered, q.config.palette);
        var printability := e.resolve(q.config, q.dependencies.printability);
        cleaned := e.cleanup(q.version, quantized, q.config, printability);
      }
      var processed := e.replay(q.version, cleaned, q.config, q.commands, rendered.transform);
      if processed.None? { return false; }
      records := records[job := Record(q, Components(q.config), Output(quantized, cleaned, processed.value))];
      return true;
    }
  }
}
