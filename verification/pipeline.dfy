/** The three stages in sequence, one request: pre-processing, execution,
    post-processing, with the context threaded through by reference. A failing
    stage ends the request with its error; context writes already made stay. */
module Pipeline {
  import opened Wrappers
  import opened Assoc
  import opened Materialized
  import InputProcessor
  import Executor
  import OutputProcessor

  /** The three `Instant.now()` readings a request makes, in stage order. */
  datatype Clock = Clock(preAt: string, execAt: string, postAt: string)

  datatype PipelineError =
    | PreFailed(pre: InputProcessor.PreError)
    | ExecFailed(exec: Executor.ExecError)

  datatype Run = Run(outcome: Result<Envelope, PipelineError>, ctx: Context)

  function RunRequest(hooks: InputProcessor.Hooks, cfg: Executor.Config, o: Executor.Oracles,
                      input: Envelope, ctx: Context, clock: Clock): (run: Run)
    requires WellFormed(input)
    // a pre-processing failure ends the request with the context untouched
    ensures InputProcessor.PreProcess(input, clock.preAt, hooks).Err? ==>
              run == Run(Err(PreFailed(InputProcessor.PreProcess(input, clock.preAt, hooks).error)), ctx)
    // once the executor is reached, its `executed-at` write stays, whatever happens next
    ensures InputProcessor.PreProcess(input, clock.preAt, hooks).Ok? ==>
              Lookup(run.ctx, Executor.ExecutedAtKey) == Some(Lookup(ctx, Executor.ExecutedAtKey).GetOr(clock.execAt))
    // the request succeeds exactly when both the first and the second stage do,
    // and the caller gets the executor's output unchanged
    ensures run.outcome.Ok? <==>
              InputProcessor.PreProcess(input, clock.preAt, hooks).Ok? &&
              Executor.Execute(cfg, o, InputProcessor.PreProcess(input, clock.preAt, hooks).value).Ok?
    ensures run.outcome.Ok? ==>
              run.outcome.value == Executor.Execute(cfg, o, InputProcessor.PreProcess(input, clock.preAt, hooks).value).value
    // an executor failure is reported as is
    ensures InputProcessor.PreProcess(input, clock.preAt, hooks).Ok? &&
            Executor.Execute(cfg, o, InputProcessor.PreProcess(input, clock.preAt, hooks).value).Err? ==>
              run.outcome ==
                Err(ExecFailed(Executor.Execute(cfg, o, InputProcessor.PreProcess(input, clock.preAt, hooks).value).error))
  {
    match InputProcessor.PreProcess(input, clock.preAt, hooks)
    case Err(e) => Run(Err(PreFailed(e)), ctx)
    case Ok(pre) =>
      var exec := Executor.Apply(cfg, o, pre, ctx, clock.execAt);
      match exec.outcome
      case Err(e) => Run(Err(ExecFailed(e)), exec.ctx)
      case Ok(out) =>
        var post := OutputProcessor.PostProcess(out, exec.ctx, clock.postAt);
        Run(Ok(post.output), post.ctx)
  }

  /** Keys some stage writes into the metadata. */
  predicate StageMetadataKey(k: string) {
    k == InputProcessor.ExecutedAtKey || k == Executor.NameKey || k == Executor.ResolvedKey
  }

  /** End to end with the shipped hooks: every metadata key no stage writes
      reaches the caller with its original value, the stage keys carry the
      stage's values, and the response is the normalised engine result. */
  lemma MetadataPropagates(cfg: Executor.Config, o: Executor.Oracles, input: Envelope, ctx: Context, clock: Clock)
    requires WellFormed(input)
    requires RunRequest(InputProcessor.CurrentHooks(), cfg, o, input, ctx, clock).outcome.Ok?
    ensures var out := RunRequest(InputProcessor.CurrentHooks(), cfg, o, input, ctx, clock).outcome.value;
            && (forall k :: !StageMetadataKey(k) ==> Lookup(out.metadata, k) == Lookup(input.metadata, k))
            && Lookup(out.metadata, InputProcessor.ExecutedAtKey) == Some(Str(clock.preAt))
            && Lookup(out.metadata, Executor.NameKey) == Some(Executor.StrOrNull(cfg.name))
            && Executor.ReadResponse(out.data).Some?
  {
    var h := InputProcessor.CurrentHooks();
    var pre := InputProcessor.PreProcess(input, clock.preAt, h).value;
    var out := Executor.Execute(cfg, o, pre).value;
    assert RunRequest(h, cfg, o, input, ctx, clock).outcome.value == out;
    forall k | !StageMetadataKey(k)
      ensures Lookup(out.metadata, k) == Lookup(input.metadata, k)
    {
      assert Lookup(out.metadata, k) == Lookup(pre.metadata, k);
      match Lookup(input.metadata, k)
      case Some(v) => assert h.keep(k, v);
      case None =>
    }
  }

  /** The context ends a successful request with the executor's and the
      post-processor's timestamps, each only if the key was absent; the
      pre-processor writes nothing there, and no other key changes. */
  lemma ContextAnnotations(hooks: InputProcessor.Hooks, cfg: Executor.Config, o: Executor.Oracles,
                           input: Envelope, ctx: Context, clock: Clock)
    requires WellFormed(input)
    requires RunRequest(hooks, cfg, o, input, ctx, clock).outcome.Ok?
    ensures var c := RunRequest(hooks, cfg, o, input, ctx, clock).ctx;
            && Lookup(c, Executor.ExecutedAtKey) == Some(Lookup(ctx, Executor.ExecutedAtKey).GetOr(clock.execAt))
            && Lookup(c, OutputProcessor.PostProcessorAtKey) ==
                 Some(Lookup(ctx, OutputProcessor.PostProcessorAtKey).GetOr(clock.postAt))
            && (forall k :: k != Executor.ExecutedAtKey && k != OutputProcessor.PostProcessorAtKey ==>
                  Lookup(c, k) == Lookup(ctx, k))
  {
    var pre := InputProcessor.PreProcess(input, clock.preAt, hooks).value;
    var exec := Executor.Apply(cfg, o, pre, ctx, clock.execAt);
    var post := OutputProcessor.PostProcess(exec.outcome.value, exec.ctx, clock.postAt);
    assert RunRequest(hooks, cfg, o, input, ctx, clock).ctx == post.ctx;
  }

  /** A pre-processing failure stops the request before the executor: no
      context write happens and the engine is never reached. */
  lemma PreFailureStopsEarly(hooks: InputProcessor.Hooks, cfg: Executor.Config, o: Executor.Oracles,
                             input: Envelope, ctx: Context, clock: Clock)
    requires WellFormed(input)
    requires InputProcessor.HasNullAfterCoercion(input.data, hooks)
    ensures RunRequest(hooks, cfg, o, input, ctx, clock) == Run(Err(PreFailed(InputProcessor.NullValueRejected)), ctx)
  {
  }
}
