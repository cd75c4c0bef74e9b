/**
 * Batch generation: DocTemplateService.generatePdfParallel. Every item is run
 * as a task whose failure is passed through or wrapped, results are collected
 * in input order, and failures are aggregated into one thrown exception. Thread
 * scheduling is not modelled: each task's environment and whether waiting for
 * it was interrupted are inputs.
 */
module Batch {
  import opened Wrappers
  import opened Substitution
  import opened Exceptions
  import opened Generation

  /** What a task's Future yields: an artifact, or the throwable the task threw. */
  type Outcome = Result<Artifact, Throwable>

  // ---------------------------------------------------------------------------
  // Argument checks and pool size

  /** The messages of the argument checks. */
  const TemplatesEmptyMessage := "templateFileNames must not be empty"
  const OutputsEmptyMessage := "outputNames must not be empty"
  const MetadataEmptyMessage := "metadataList must not be empty"
  const OutputsSizeMessage := "templateFileNames and outputNames must have the same size"
  const MetadataSizeMessage := "templateFileNames and metadataList must have the same size"

  /** The argument checks of generatePdfParallel, in source order (None for a null list). */
  function ArgumentError(templates: Option<seq<Option<string>>>, metadataList: Option<seq<Option<Metadata>>>,
                         outputs: Option<seq<Option<string>>>): Option<Throwable>
  {
    if templates.None? || templates.value == [] then
      Some(Raise(IllegalArgumentException, TemplatesEmptyMessage))
    else if outputs.None? || outputs.value == [] then
      Some(Raise(IllegalArgumentException, OutputsEmptyMessage))
    else if metadataList.None? || metadataList.value == [] then
      Some(Raise(IllegalArgumentException, MetadataEmptyMessage))
    else if |templates.value| != |outputs.value| then
      Some(Raise(IllegalArgumentException, OutputsSizeMessage))
    else if |templates.value| != |metadataList.value| then
      Some(Raise(IllegalArgumentException, MetadataSizeMessage))
    else None
  }

  /** The arguments pass exactly when all three lists are present, non-empty and equally long. */
  lemma ArgumentsAcceptedIff(templates: Option<seq<Option<string>>>, metadataList: Option<seq<Option<Metadata>>>,
                             outputs: Option<seq<Option<string>>>)
    ensures ArgumentError(templates, metadataList, outputs).None? <==>
      && templates.Some? && outputs.Some? && metadataList.Some? && templates.value != []
      && |templates.value| == |outputs.value| == |metadataList.value|
    ensures ArgumentError(templates, metadataList, outputs).Some? ==>
      ArgumentError(templates, metadataList, outputs).value.cls == IllegalArgumentException
  {
  }

  /** min(n, max(1, availableProcessors)): the number of worker threads. */
  function PoolSize(n: nat, processors: int): (threads: int)
    ensures n >= 1 ==> 1 <= threads <= n
    ensures processors >= 1 ==> threads <= processors
    ensures threads == n || threads == processors || (threads == 1 && processors < 1)
  {
    var workers := if processors > 1 then processors else 1;
    if n < workers then n else workers
  }

  // ---------------------------------------------------------------------------
  // One task

  /** The text of a wrapped task failure, naming the task by its 1-based number. */
  const TaskErrorPrefix := "Unexpected error in task #"

  /**
   * The task's catch block: an IOException (including FileNotFoundException) or
   * Docx4JException is rethrown as it is; anything else becomes an IOException
   * naming the task and keeping the original as its cause.
   */
  function WrapTaskError(index: nat, t: Throwable): (r: Throwable)
    ensures IsIOException(t.cls) || t.cls == Docx4JException ==> r == t
    ensures !(IsIOException(t.cls) || t.cls == Docx4JException) ==>
      r.cls == IOException && r.cause == Some(t) && r.suppressed == []
  {
    if IsIOException(t.cls) || t.cls == Docx4JException then t
    else Wrap(IOException, TaskErrorPrefix + DecimalString(index + 1), t)
  }

  /** A wrapped failure's message identifies its task: the digits after the prefix read back as index + 1. */
  lemma WrappedErrorNamesTask(index: nat, t: Throwable)
    requires !(IsIOException(t.cls) || t.cls == Docx4JException)
    ensures var m := WrapTaskError(index, t).message;
      && m.Some? && StartsWith(m.value, TaskErrorPrefix)
      && var digits := m.value[|TaskErrorPrefix|..];
         (forall i :: 0 <= i < |digits| ==> '0' <= digits[i] <= '9') && DecimalValue(digits) == index + 1
  {
    var m := WrapTaskError(index, t).message.value;
    assert m[|TaskErrorPrefix|..] == DecimalString(index + 1);
    assert m[..|TaskErrorPrefix|] == TaskErrorPrefix;
    DecimalRoundTrip(index + 1);
  }

  /** What task number index + 1 returns or throws. */
  function TaskResult(env: Environment, index: nat, template: Option<string>, metadata: Option<Metadata>,
                      output: Option<string>): Outcome
  {
    match GenerationOutcome(env, template, metadata, output)
    case Success(a) => Success(a)
    case Failure(t) => Failure(WrapTaskError(index, t))
  }

  /** The task body: generatePdf, with its failure passed through or wrapped. */
  method RunTask(env: Environment, index: nat, template: Option<string>, metadata: Option<Metadata>,
                 output: Option<string>) returns (r: Outcome)
    ensures r == TaskResult(env, index, template, metadata, output)
  {
    var generated := GeneratePdf(env, template, metadata, output);
    if generated.Success? {
      return Success(generated.value);
    }
    return Failure(WrapTaskError(index, generated.error));
  }

  // ---------------------------------------------------------------------------
  // Collecting and aggregating

  /** The per-item inputs the model takes from outside: the task's environment and whether f.get() was interrupted. */
  datatype TaskWorld = TaskWorld(env: Environment, interrupted: bool)

  /** The InterruptedException thrown by an interrupted f.get(). */
  function Interruption(): Throwable {
    Throwable(InterruptedException, None, None, [])
  }

  /** What the collection loop records for item i: the task's outcome, or the interruption. */
  function Collected(world: TaskWorld, index: nat, template: Option<string>, metadata: Option<Metadata>,
                     output: Option<string>): Outcome
  {
    if world.interrupted then Failure(Interruption()) else TaskResult(world.env, index, template, metadata, output)
  }

  /** The recorded outcome of every item, in input order. */
  function CollectAll(templates: seq<Option<string>>, metadataList: seq<Option<Metadata>>,
                      outputs: seq<Option<string>>, world: nat -> TaskWorld): (os: seq<Outcome>)
    requires |templates| == |metadataList| == |outputs|
    ensures |os| == |templates|
  {
    seq(|templates|, i requires 0 <= i < |templates| =>
      Collected(world(i), i, templates[i], metadataList[i], outputs[i]))
  }

  /** The successful results, in order (the `results` list). */
  function Successes(os: seq<Outcome>): seq<Artifact> {
    if os == [] then []
    else Successes(os[..|os| - 1]) + (if os[|os| - 1].Success? then [os[|os| - 1].value] else [])
  }

  /** The failures, in order (the `failures` list). */
  function Failures(os: seq<Outcome>): seq<Throwable> {
    if os == [] then []
    else Failures(os[..|os| - 1]) + (if os[|os| - 1].Failure? then [os[|os| - 1].error] else [])
  }

  /** The first Docx4JException in the list, as the rethrow loop finds it. */
  function FirstDocx4J(fs: seq<Throwable>): Option<Throwable> {
    if fs == [] then None
    else if fs[0].cls == Docx4JException then Some(fs[0])
    else FirstDocx4J(fs[1..])
  }

  /** The message of the aggregate IOException. */
  const AggregateMessage := "One or more PDF generation tasks failed"

  /** The aggregate IOException, carrying every failure as suppressed. */
  function AggregateFailure(fs: seq<Throwable>): Throwable {
    Throwable(IOException, Some(AggregateMessage), None, fs)
  }

  /** The result of the batch once every item is recorded. */
  function Aggregate(os: seq<Outcome>): Result<seq<Artifact>, Throwable> {
    var fs := Failures(os);
    if fs == [] then Success(Successes(os))
    else match FirstDocx4J(fs)
      case Some(t) => Failure(t)
      case None => Failure(AggregateFailure(fs))
  }

  /** What generatePdfParallel returns or throws. */
  function BatchOutcome(templates: Option<seq<Option<string>>>, metadataList: Option<seq<Option<Metadata>>>,
                        outputs: Option<seq<Option<string>>>, world: nat -> TaskWorld): Result<seq<Artifact>, Throwable>
  {
    match ArgumentError(templates, metadataList, outputs)
    case Some(e) => Failure(e)
    case None => Aggregate(CollectAll(templates.value, metadataList.value, outputs.value, world))
  }

  /** The rethrow loop finds the Docx4JException at j when none comes before it. */
  lemma {:induction false} FirstDocx4JAt(fs: seq<Throwable>, j: nat)
    requires j < |fs| && fs[j].cls == Docx4JException
    requires forall k :: 0 <= k < j ==> fs[k].cls != Docx4JException
    ensures FirstDocx4J(fs) == Some(fs[j])
    decreases j
  {
    if j > 0 {
      FirstDocx4JAt(fs[1..], j - 1);
    }
  }

  /** Without a Docx4JException the rethrow loop finds nothing. */
  lemma {:induction false} FirstDocx4JNone(fs: seq<Throwable>)
    requires forall k :: 0 <= k < |fs| ==> fs[k].cls != Docx4JException
    ensures FirstDocx4J(fs) == None
    decreases |fs|
  {
    if fs != [] {
      FirstDocx4JNone(fs[1..]);
    }
  }

  /** The outcomes of the first n tasks, in input order. */
  function TaskResults(names: seq<Option<string>>, metas: seq<Option<Metadata>>, outs: seq<Option<string>>,
                       world: nat -> TaskWorld, n: nat): (rs: seq<Outcome>)
    requires n <= |names| == |metas| == |outs|
    ensures |rs| == n
  {
    if n == 0 then []
    else TaskResults(names, metas, outs, world, n - 1) + [TaskResult(world(n - 1).env, n - 1, names[n - 1], metas[n - 1], outs[n - 1])]
  }

  /** Task k's entry is its own outcome. */
  lemma {:induction false} TaskResultsAt(names: seq<Option<string>>, metas: seq<Option<Metadata>>, outs: seq<Option<string>>,
                                         world: nat -> TaskWorld, n: nat, k: nat)
    requires k < n <= |names| == |metas| == |outs|
    ensures TaskResults(names, metas, outs, world, n)[k] == TaskResult(world(k).env, k, names[k], metas[k], outs[k])
    decreases n
  {
    if k < n - 1 {
      TaskResultsAt(names, metas, outs, world, n - 1, k);
    }
  }

  /** Submitting every task, in input order; each runs to its own outcome. */
  method RunTasks(names: seq<Option<string>>, metas: seq<Option<Metadata>>, outs: seq<Option<string>>,
                  world: nat -> TaskWorld) returns (tasks: seq<Outcome>)
    requires |names| == |metas| == |outs|
    ensures tasks == TaskResults(names, metas, outs, world, |names|)
  {
    tasks := [];
    var i := 0;
    while i < |names|
      invariant 0 <= i <= |names|
      invariant tasks == TaskResults(names, metas, outs, world, i)
    {
      var outcome := RunTask(world(i).env, i, names[i], metas[i], outs[i]);
      tasks := tasks + [outcome];
      i := i + 1;
    }
  }

  /**
   * The collection loop: wait for each task in input order, adding its result to
   * `results` or its failure (or the interruption) to `failures`.
   */
  method CollectOutcomes(tasks: seq<Outcome>, interrupted: seq<bool>)
    returns (results: seq<Artifact>, failures: seq<Throwable>)
    requires |interrupted| == |tasks|
    ensures var recorded := seq(|tasks|, k requires 0 <= k < |tasks| =>
        if interrupted[k] then Failure(Interruption()) else tasks[k]);
      results == Successes(recorded) && failures == Failures(recorded)
  {
    ghost var recorded := seq(|tasks|, k requires 0 <= k < |tasks| =>
      if interrupted[k] then Failure(Interruption()) else tasks[k]);
    results, failures := [], [];
    var i := 0;
    while i < |tasks|
      invariant 0 <= i <= |tasks|
      invariant results == Successes(recorded[..i]) && failures == Failures(recorded[..i])
    {
      var got := if interrupted[i] then Failure(Interruption()) else tasks[i];
      assert recorded[..i + 1][..i] == recorded[..i];
      match got {
        case Success(artifact) => results := results + [artifact];
        case Failure(t) => failures := failures + [t];
      }
      i := i + 1;
    }
    assert recorded[..i] == recorded;
  }

  /** The rethrow step: the first Docx4JException among the failures, else the aggregate. */
  method Rethrow(failures: seq<Throwable>) returns (t: Throwable)
    ensures FirstDocx4J(failures).Some? ==> t == FirstDocx4J(failures).value
    ensures FirstDocx4J(failures).None? ==> t == AggregateFailure(failures)
  {
    var j := 0;
    while j < |failures|
      invariant 0 <= j <= |failures|
      invariant forall k :: 0 <= k < j ==> failures[k].cls != Docx4JException
    {
      if failures[j].cls == Docx4JException {
        FirstDocx4JAt(failures, j);
        return failures[j];
      }
      j := j + 1;
    }
    FirstDocx4JNone(failures);
    return AggregateFailure(failures);
  }

  /**
   * generatePdfParallel: check the arguments, run every item's task, wait for
   * each in input order recording its result or failure, and then return the
   * results, or throw the first Docx4JException among the failures, or else an
   * IOException carrying every failure as suppressed.
   */
  method GeneratePdfParallel(templates: Option<seq<Option<string>>>, metadataList: Option<seq<Option<Metadata>>>,
                             outputs: Option<seq<Option<string>>>, world: nat -> TaskWorld)
    returns (r: Result<seq<Artifact>, Throwable>)
    ensures r == BatchOutcome(templates, metadataList, outputs, world)
  {
    var error := ArgumentError(templates, metadataList, outputs);
    if error.Some? {
      return Failure(error.value);
    }
    var names, metas, outs := templates.value, metadataList.value, outputs.value;
    var tasks := RunTasks(names, metas, outs, world);
    var interrupted := seq(|names|, k requires 0 <= k < |names| => world(k).interrupted);
    var results, failures := CollectOutcomes(tasks, interrupted);
    assert failures == Failures(CollectAll(names, metas, outs, world)) && results == Successes(CollectAll(names, metas, outs, world)) by {
      forall k | 0 <= k < |names|
        ensures tasks[k] == TaskResult(world(k).env, k, names[k], metas[k], outs[k])
      {
        TaskResultsAt(names, metas, outs, world, |names|, k);
      }
      assert seq(|tasks|, k requires 0 <= k < |tasks| => if interrupted[k] then Failure(Interruption()) else tasks[k])
          == CollectAll(names, metas, outs, world);
    }
    if failures == [] {
      return Success(results);
    }
    var thrown := Rethrow(failures);
    return Failure(thrown);
  }

  // ---------------------------------------------------------------------------
  // Properties of the batch

  /** Recording two stretches of items one after the other concatenates their failures. */
  lemma {:induction false} FailuresConcat(a: seq<Outcome>, b: seq<Outcome>)
    ensures Failures(a + b) == Failures(a) + Failures(b)
    decreases |b|
  {
    if b != [] {
      FailuresConcat(a, b[..|b| - 1]);
      assert (a + b)[..|a + b| - 1] == a + b[..|b| - 1];
    } else {
      assert a + b == a;
    }
  }

  /** The failures list holds exactly the failures of the items. */
  lemma {:induction false} FailuresMembers(os: seq<Outcome>)
    ensures forall t :: t in Failures(os) <==> exists k :: 0 <= k < |os| && os[k] == Failure(t)
    decreases |os|
  {
    if os != [] {
      var init := os[..|os| - 1];
      FailuresMembers(init);
      forall t | (exists k :: 0 <= k < |os| && os[k] == Failure(t))
        ensures t in Failures(os)
      {
        var k :| 0 <= k < |os| && os[k] == Failure(t);
        if k < |os| - 1 {
          assert init[k] == os[k];
        }
      }
      forall t | t in Failures(init)
        ensures exists k :: 0 <= k < |os| && os[k] == Failure(t)
      {
        var k :| 0 <= k < |init| && init[k] == Failure(t);
        assert os[k] == Failure(t);
      }
    }
  }

  /** The failures list is empty exactly when every item succeeded. */
  lemma NoFailuresIff(os: seq<Outcome>)
    ensures Failures(os) == [] <==> forall k :: 0 <= k < |os| ==> os[k].Success?
  {
    FailuresMembers(os);
    if Failures(os) != [] {
      assert Failures(os)[0] in Failures(os);
    }
  }

  /** When every item succeeded, the results are the items' artifacts, one per item, in input order. */
  lemma {:induction false} SuccessesInOrder(os: seq<Outcome>)
    requires forall k :: 0 <= k < |os| ==> os[k].Success?
    ensures |Successes(os)| == |os|
    ensures forall k :: 0 <= k < |os| ==> Successes(os)[k] == os[k].value
    decreases |os|
  {
    if os != [] {
      var init := os[..|os| - 1];
      SuccessesInOrder(init);
      assert Successes(os) == Successes(init) + [os[|os| - 1].value];
    }
  }

  /** A single failed item records its failure alone. */
  lemma FailuresSingle(o: Outcome)
    requires o.Failure?
    ensures Failures([o]) == [o.error]
  {
    assert [o][..0] == [];
  }

  /** A sequence is its prefix before i, its element at i, and its suffix after i. */
  lemma SplitAround<T>(s: seq<T>, i: nat)
    requires i < |s|
    ensures s == s[..i] + ([s[i]] + s[i + 1..])
    ensures s[..i + 1][..i] == s[..i]
  {
  }

  /** Recording an item that failed adds exactly its failure between those before and after it. */
  lemma FailuresSplit(os: seq<Outcome>, i: nat)
    requires i < |os| && os[i].Failure?
    ensures Failures(os) == Failures(os[..i]) + [os[i].error] + Failures(os[i + 1..])
  {
    var before, after := os[..i], os[i + 1..];
    SplitAround(os, i);
    calc {
      Failures(os);
    == { FailuresConcat(before, [os[i]] + after); }
      Failures(before) + Failures([os[i]] + after);
    == { FailuresConcat([os[i]], after); FailuresSingle(os[i]); }
      Failures(before) + ([os[i].error] + Failures(after));
    }
  }

  /**
   * Failures are recorded in index order: an earlier item's failure comes before
   * a later item's, each at the position counting the failures before it.
   */
  lemma FailuresInIndexOrder(os: seq<Outcome>, i: nat, j: nat)
    requires i < j < |os| && os[i].Failure? && os[j].Failure?
    ensures var p, q := |Failures(os[..i])|, |Failures(os[..j])|;
      p < q < |Failures(os)| && Failures(os)[p] == os[i].error && Failures(os)[q] == os[j].error
  {
    FailuresSplit(os, i);
    FailuresSplit(os, j);
    var prefix := os[..j];
    assert prefix[..i] == os[..i];
    FailuresSplit(prefix, i);
  }

  /** An item that fails with a Docx4JException, with none before it, is what the rethrow loop finds. */
  lemma FirstFailingDocx4J(os: seq<Outcome>, i: nat)
    requires i < |os| && os[i].Failure? && os[i].error.cls == Docx4JException
    requires forall k :: 0 <= k < i ==> !(os[k].Failure? && os[k].error.cls == Docx4JException)
    ensures FirstDocx4J(Failures(os)) == Some(os[i].error)
  {
    var before := os[..i];
    FailuresSplit(os, i);
    FailuresMembers(before);
    var fs := Failures(os);
    var j := |Failures(before)|;
    forall k | 0 <= k < j
      ensures fs[k].cls != Docx4JException
    {
      assert fs[k] == Failures(before)[k];
      assert Failures(before)[k] in Failures(before);
    }
    FirstDocx4JAt(fs, j);
  }

  /** Without a Docx4JException among the failures, the rethrow loop finds nothing. */
  lemma NoFailingDocx4J(os: seq<Outcome>)
    requires forall k :: 0 <= k < |os| ==> !(os[k].Failure? && os[k].error.cls == Docx4JException)
    ensures FirstDocx4J(Failures(os)) == None
  {
    var fs := Failures(os);
    FailuresMembers(os);
    forall k | 0 <= k < |fs|
      ensures fs[k].cls != Docx4JException
    {
      assert fs[k] in fs;
    }
    FirstDocx4JNone(fs);
  }

  /**
   * The batch returns normally exactly when every item's task succeeded and was
   * waited for without interruption; its results are then the items' artifacts,
   * one per item, in input order.
   */
  lemma AggregateSucceedsIff(os: seq<Outcome>)
    ensures Aggregate(os).Success? <==> forall k :: 0 <= k < |os| ==> os[k].Success?
    ensures Aggregate(os).Success? ==>
      |Aggregate(os).value| == |os| && forall k :: 0 <= k < |os| ==> Aggregate(os).value[k] == os[k].value
  {
    NoFailuresIff(os);
    if Aggregate(os).Success? {
      SuccessesInOrder(os);
    }
  }

  /**
   * When some item fails with a Docx4JException, the batch throws the one of the
   * lowest-numbered such item, by itself.
   */
  lemma Docx4JRethrown(os: seq<Outcome>, i: nat)
    requires i < |os| && os[i].Failure? && os[i].error.cls == Docx4JException
    requires forall k :: 0 <= k < i ==> !(os[k].Failure? && os[k].error.cls == Docx4JException)
    ensures Aggregate(os) == Failure(os[i].error)
  {
    FirstFailingDocx4J(os, i);
    FailuresMembers(os);
    assert os[i].error in Failures(os);
  }

  /**
   * When items fail but none with a Docx4JException, the batch throws one
   * IOException whose suppressed list holds exactly the items' failures.
   */
  lemma FailuresAggregated(os: seq<Outcome>)
    requires exists k :: 0 <= k < |os| && os[k].Failure?
    requires forall k :: 0 <= k < |os| ==> !(os[k].Failure? && os[k].error.cls == Docx4JException)
    ensures Aggregate(os).Failure? && Aggregate(os).error.cls == IOException
    ensures Aggregate(os).error.message == Some(AggregateMessage)
    ensures Aggregate(os).error.suppressed == Failures(os)
    ensures forall t :: t in Aggregate(os).error.suppressed <==> exists k :: 0 <= k < |os| && os[k] == Failure(t)
  {
    NoFailingDocx4J(os);
    FailuresMembers(os);
    var k :| 0 <= k < |os| && os[k].Failure?;
    assert os[k].error in Failures(os);
  }

  /**
   * Once the arguments pass, the batch's outcome is the aggregate of every item's
   * recorded outcome, item i holding task i's result unless waiting for it was
   * interrupted.
   */
  lemma BatchAggregatesItems(templates: seq<Option<string>>, metadataList: seq<Option<Metadata>>,
                             outputs: seq<Option<string>>, world: nat -> TaskWorld, i: nat)
    requires ArgumentError(Some(templates), Some(metadataList), Some(outputs)).None?
    requires i < |templates|
    ensures |templates| == |metadataList| == |outputs|
    ensures var os := CollectAll(templates, metadataList, outputs, world);
      && BatchOutcome(Some(templates), Some(metadataList), Some(outputs), world) == Aggregate(os)
      && os[i] == if world(i).interrupted then Failure(Interruption())
                  else TaskResult(world(i).env, i, templates[i], metadataList[i], outputs[i])
  {
  }

  /**
   * A Docx4JException hides every other failure: here an IOException of the
   * first item appears nowhere in what the batch throws.
   */
  lemma Docx4JHidesOtherFailures(io: Throwable, docx: Throwable)
    requires io.cls == IOException && docx.cls == Docx4JException && docx.suppressed == [] && docx.cause == None
    ensures Aggregate([Failure(io), Failure(docx)]) == Failure(docx)
    ensures io != docx && io !in docx.suppressed && docx.cause != Some(io)
  {
    var os: seq<Outcome> := [Failure(io), Failure(docx)];
    assert os[..1][..0] == [] && os[..1] == [Failure(io)];
    assert Failures(os[..1]) == [io];
    assert Failures(os) == [io, docx];
    assert [io, docx][1..] == [docx];
    assert FirstDocx4J([docx]) == Some(docx);
  }

  /**
   * An argument error inside a task is neither an IOException nor a
   * Docx4JException, so it reaches the caller wrapped, naming the task.
   */
  lemma BlankTemplateWrapped(env: Environment, index: nat, template: Option<string>, metadata: Option<Metadata>,
                             output: Option<string>)
    requires Blank(template)
    ensures TaskResult(env, index, template, metadata, output)
         == Failure(Wrap(IOException, TaskErrorPrefix + DecimalString(index + 1),
                         Raise(IllegalArgumentException, "templateFileName must not be empty")))
  {
    BlankTemplateRejected(env, template, metadata, output);
  }

  /** A missing template's FileNotFoundException is an IOException, so it passes through unwrapped. */
  lemma MissingTemplateUnwrapped(env: Environment, index: nat, template: string, metadata: Option<Metadata>,
                                 output: Option<string>)
    requires !Blank(Some(template)) && !Blank(output)
    requires LookupTemplate(env.classpath, template).None?
    ensures TaskResult(env, index, Some(template), metadata, output)
         == Failure(Raise(FileNotFoundException, NotFoundMessage(template)))
  {
    MissingTemplateReported(env, template, metadata, output);
  }

  /**
   * A one-item batch whose template is missing throws the aggregate IOException,
   * with the item's FileNotFoundException as its only suppressed failure.
   */
  lemma MissingTemplateBatch(env: Environment, world: nat -> TaskWorld)
    requires env.classpath == map[] && world(0) == TaskWorld(env, false)
    ensures BatchOutcome(Some([Some("missing.docx")]), Some([None]), Some([Some("out")]), world)
         == Failure(AggregateFailure([Raise(FileNotFoundException, NotFoundMessage("missing.docx"))]))
  {
    var notFound := Raise(FileNotFoundException, NotFoundMessage("missing.docx"));
    assert !Blank(Some("missing.docx")) by { assert "missing.docx"[0] > ' '; }
    assert !Blank(Some("out")) by { assert "out"[0] > ' '; }
    MissingTemplateUnwrapped(env, 0, "missing.docx", None, Some("out"));
    var os := CollectAll([Some("missing.docx")], [None], [Some("out")], world);
    assert os == [Failure(notFound)];
    FailuresSingle(Failure(notFound));
    assert FirstDocx4J([notFound]) == None;
  }
}
