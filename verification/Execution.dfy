/** One governed execution (crates/cli/src/execution.rs) as a staged run with an
    event log. */
module Execution {
  import opened Text

  datatype Outcome =
    | Fine | SetupError | RuntimeUnavailable | RelayError | LockdownRefused | TeardownError
    | TimedOut | ResourceLimit | RuntimeError | ExecutionError | InvalidResult

  /** What this execution appends to the run log. */
  datatype Event =
    | Started
    | ImagePulled(image: nat)
    | LimitHit(timeout: bool)
    | Finished(outcome: Outcome, calls: nat, hasResult: bool, stdout: nat, stderr: nat)

  datatype Wait = Exited(code: Option<int>) | Timeout | OutputLimit | OtherError

  datatype Image = Image(ok: bool, pulled: bool)

  /** How every stage turns out: Docker, the relay, the guest and the host files
      are outside the model. */
  datatype World = World(
    created: bool,
    prepares: bool, tokenWritten: bool, dockerConnects: bool,
    bindReadable: bool, bindChosen: bool, relayStarts: bool,
    noneSkipped: bool, hostsClassified: bool,
    rulesetEncodes: bool, rulesetWritten: bool, appReadOnly: bool, spoolStarts: bool,
    images: seq<Image>,
    lockdownStarts: bool, containerStarts: bool,
    wait: Wait, tornDown: bool,
    resultParses: bool, withinLimits: bool,
    calls: nat, stdout: nat, stderr: nat)

  // -------------------------------------------------------------- the table --

  /** A stage, whether it went well, and the outcome its failure records. */
  datatype Stage = Stage(ok: bool, failure: Outcome)

  function ImageStages(images: seq<Image>): seq<Stage> {
    if images == [] then [] else [Stage(images[0].ok, RuntimeUnavailable)] + ImageStages(images[1..])
  }

  function PrepareStages(w: World): seq<Stage> {
    [Stage(w.prepares, SetupError), Stage(w.tokenWritten, SetupError), Stage(w.dockerConnects, RuntimeUnavailable)]
  }

  function RelayStages(w: World): seq<Stage> {
    [Stage(w.bindReadable, RelayError), Stage(w.bindChosen, RelayError), Stage(w.relayStarts, RelayError),
     Stage(w.noneSkipped, LockdownRefused), Stage(w.hostsClassified, LockdownRefused)]
  }

  function RulesetStages(w: World): seq<Stage> {
    [Stage(w.rulesetEncodes, SetupError), Stage(w.rulesetWritten, SetupError), Stage(w.appReadOnly, SetupError),
     Stage(w.spoolStarts, RuntimeUnavailable)]
  }

  function SetupStages(w: World): seq<Stage> {
    PrepareStages(w) + (RelayStages(w) + RulesetStages(w))
  }

  function LaunchStages(w: World): seq<Stage> {
    [Stage(w.lockdownStarts, RuntimeUnavailable), Stage(w.containerStarts, RuntimeUnavailable)]
  }

  function EndStages(w: World): seq<Stage> {
    [Stage(w.tornDown, TeardownError),
     Stage(!w.wait.Timeout?, TimedOut), Stage(!w.wait.OutputLimit?, ResourceLimit),
     Stage(w.wait.Exited?, RuntimeError), Stage(w.wait.Exited? && w.wait.code == Some(0), ExecutionError),
     Stage(w.resultParses, InvalidResult), Stage(w.withinLimits, ResourceLimit)]
  }

  /** Every stage in order. */
  function Stages(w: World): seq<Stage> {
    SetupStages(w) + (ImageStages(w.images) + (LaunchStages(w) + EndStages(w)))
  }

  /** The outcome of the first stage that fails. */
  function FirstFailure(stages: seq<Stage>): Outcome {
    if stages == [] then Fine
    else if !stages[0].ok then stages[0].failure
    else FirstFailure(stages[1..])
  }

  predicate AllOk(stages: seq<Stage>) { stages == [] || (stages[0].ok && AllOk(stages[1..])) }

  // ---------------------------------------------------------------- the log --

  predicate Brackets(e: Event) { e.Started? || e.Finished? }

  /** Opened once, closed once, in that order and at the two ends. */
  predicate WellBracketed(log: seq<Event>) {
    && |log| >= 2 && log[0].Started? && log[|log| - 1].Finished?
    && forall i :: 1 <= i < |log| - 1 ==> !Brackets(log[i])
  }

  class RunLog {
    var events: seq<Event>

    constructor ()
      ensures events == []
    {
      events := [];
    }

    method Append(e: Event)
      modifies this
      ensures events == old(events) + [e]
    {
      events := events + [e];
    }

    /** `finish_error` */
    method FinishError(outcome: Outcome, calls: nat, stdout: nat, stderr: nat)
      modifies this
      ensures events == old(events) + [Finished(outcome, calls, false, stdout, stderr)]
    {
      Append(Finished(outcome, calls, false, stdout, stderr));
    }
  }

  /** The log is open: started, not yet finished. */
  predicate Open(log: seq<Event>) {
    |log| >= 1 && log[0].Started? && forall i :: 1 <= i < |log| ==> !Brackets(log[i])
  }

  lemma CloseOpen(log: seq<Event>, e: Event)
    requires Open(log) && e.Finished?
    ensures WellBracketed(log + [e])
  {
  }

  lemma {:induction false} FirstFailureJoin(a: seq<Stage>, b: seq<Stage>)
    ensures FirstFailure(a + b) == if AllOk(a) then FirstFailure(b) else FirstFailure(a)
    ensures AllOk(a + b) <==> AllOk(a) && AllOk(b)
  {
    if a == [] {
      assert a + b == b;
    } else {
      assert (a + b)[1..] == a[1..] + b;
      FirstFailureJoin(a[1..], b);
    }
  }

  /** The first stage that fails is the one that counts. */
  lemma {:induction false} FailsAt(stages: seq<Stage>, k: nat)
    requires k < |stages| && !stages[k].ok && forall i :: 0 <= i < k ==> stages[i].ok
    ensures FirstFailure(stages) == stages[k].failure && !AllOk(stages)
  {
    if k == 0 {
    } else {
      FailsAt(stages[1..], k - 1);
    }
  }

  lemma {:induction false} NoneFails(stages: seq<Stage>)
    requires forall i :: 0 <= i < |stages| ==> stages[i].ok
    ensures FirstFailure(stages) == Fine && AllOk(stages)
  {
    if stages == [] {
    } else {
      NoneFails(stages[1..]);
    }
  }

  /** A stage list whose failures are failures succeeds exactly when all is well. */
  lemma {:induction false} FineMeansAllOk(stages: seq<Stage>)
    requires forall i :: 0 <= i < |stages| ==> !stages[i].failure.Fine?
    ensures FirstFailure(stages) == Fine <==> AllOk(stages)
  {
    if stages == [] {
    } else {
      FineMeansAllOk(stages[1..]);
    }
  }

  // -------------------------------------------------------------- the trace --

  /** The pulls the image loop notes, from image `i` on: up to the first image that
      cannot be had. */
  function Pulls(images: seq<Image>, i: nat): seq<Event>
    requires i <= |images|
    decreases |images| - i
  {
    if i == |images| || !images[i].ok then []
    else (if images[i].pulled then [ImagePulled(i)] else []) + Pulls(images, i + 1)
  }

  /** The note a limit leaves, when teardown went well. */
  function LimitNote(w: World): seq<Event> {
    if w.tornDown && (w.wait.Timeout? || w.wait.OutputLimit?) then [LimitHit(w.wait.Timeout?)] else []
  }

  /** The terminal event: counts are known once the guest has run. */
  function Terminal(w: World): Event {
    var outcome := FirstFailure(Stages(w));
    if AllOk(SetupStages(w)) && AllOk(ImageStages(w.images)) && AllOk(LaunchStages(w))
    then Finished(outcome, w.calls, AllOk(EndStages(w)), w.stdout, w.stderr)
    else Finished(outcome, 0, false, 0, 0)
  }

  /** Everything an execution appends to the log. */
  function Trace(w: World): seq<Event> {
    var setup, images, launch := AllOk(SetupStages(w)), AllOk(ImageStages(w.images)), AllOk(LaunchStages(w));
    [Started] + (if setup then Pulls(w.images, 0) else [])
    + (if setup && images && launch then LimitNote(w) else []) + [Terminal(w)]
  }

  /** The trace of an execution that ends before the guest runs. */
  lemma {:induction false} ShortTrace(w: World)
    requires !(AllOk(SetupStages(w)) && AllOk(ImageStages(w.images)) && AllOk(LaunchStages(w)))
    ensures Trace(w) == [Started] + (if AllOk(SetupStages(w)) then Pulls(w.images, 0) else [])
                        + [Finished(FirstFailure(Stages(w)), 0, false, 0, 0)]
  {
  }

  // ------------------------------------------------------------- the stages --

  method Prepare(w: World) returns (failure: Outcome)
    ensures failure == FirstFailure(PrepareStages(w))
    ensures failure == Fine <==> AllOk(PrepareStages(w))
  {
    ghost var st := PrepareStages(w);
    if !w.prepares { FailsAt(st, 0); return SetupError; }
    if !w.tokenWritten { FailsAt(st, 1); return SetupError; }
    if !w.dockerConnects { FailsAt(st, 2); return RuntimeUnavailable; }
    NoneFails(st);
    return Fine;
  }

  method OpenRelay(w: World) returns (failure: Outcome)
    ensures failure == FirstFailure(RelayStages(w))
    ensures failure == Fine <==> AllOk(RelayStages(w))
  {
    ghost var st := RelayStages(w);
    if !w.bindReadable { FailsAt(st, 0); return RelayError; }
    if !w.bindChosen { FailsAt(st, 1); return RelayError; }
    if !w.relayStarts { FailsAt(st, 2); return RelayError; }
    if !w.noneSkipped { FailsAt(st, 3); return LockdownRefused; }
    if !w.hostsClassified { FailsAt(st, 4); return LockdownRefused; }
    NoneFails(st);
    return Fine;
  }

  method WriteRuleset(w: World) returns (failure: Outcome)
    ensures failure == FirstFailure(RulesetStages(w))
    ensures failure == Fine <==> AllOk(RulesetStages(w))
  {
    ghost var st := RulesetStages(w);
    if !w.rulesetEncodes { FailsAt(st, 0); return SetupError; }
    if !w.rulesetWritten { FailsAt(st, 1); return SetupError; }
    if !w.appReadOnly { FailsAt(st, 2); return SetupError; }
    if !w.spoolStarts { FailsAt(st, 3); return RuntimeUnavailable; }
    NoneFails(st);
    return Fine;
  }

  /** The fixed setup stages: the first that fails names the outcome. */
  method Setup(w: World) returns (failure: Outcome)
    ensures failure == FirstFailure(SetupStages(w))
    ensures failure == Fine <==> AllOk(SetupStages(w))
  {
    FirstFailureJoin(RelayStages(w), RulesetStages(w));
    FirstFailureJoin(PrepareStages(w), RelayStages(w) + RulesetStages(w));
    failure := Prepare(w);
    if failure == Fine {
      failure := OpenRelay(w);
      if failure == Fine {
        failure := WriteRuleset(w);
      }
    }
  }

  /** The image loop: each pull is logged; the first failure ends it. */
  method AcquireImages(log: RunLog, images: seq<Image>) returns (failure: Outcome)
    requires Open(log.events)
    modifies log
    ensures Open(log.events)
    ensures log.events == old(log.events) + Pulls(images, 0)
    ensures failure == FirstFailure(ImageStages(images))
    ensures failure == Fine <==> AllOk(ImageStages(images))
  {
    for i := 0 to |images|
      invariant Open(log.events)
      invariant log.events + Pulls(images, i) == old(log.events) + Pulls(images, 0)
      invariant FirstFailure(ImageStages(images[i..])) == FirstFailure(ImageStages(images))
      invariant AllOk(ImageStages(images[i..])) <==> AllOk(ImageStages(images))
    {
      ghost var rest := images[i..];
      assert rest[0] == images[i] && rest[1..] == images[i + 1..];
      assert ImageStages(rest)[1..] == ImageStages(images[i + 1..]);
      if !images[i].ok {
        return RuntimeUnavailable;
      }
      PullsStep(log.events, images, i);
      if images[i].pulled {
        log.Append(ImagePulled(i));
      }
    }
    assert images[|images|..] == [];
    failure := Fine;
  }

  lemma PullsStep(events: seq<Event>, images: seq<Image>, i: nat)
    requires i < |images| && images[i].ok
    ensures events + Pulls(images, i)
            == (if images[i].pulled then events + [ImagePulled(i)] else events) + Pulls(images, i + 1)
  {
  }

  method Launch(w: World) returns (failure: Outcome)
    ensures failure == FirstFailure(LaunchStages(w))
    ensures failure == Fine <==> AllOk(LaunchStages(w))
  {
    ghost var st := LaunchStages(w);
    if !w.lockdownStarts { FailsAt(st, 0); return RuntimeUnavailable; }
    if !w.containerStarts { FailsAt(st, 1); return RuntimeUnavailable; }
    NoneFails(st);
    return Fine;
  }

  /** From the guest's exit on: teardown is judged before the wait, a limit is
      noted before it is recorded, and every path closes the log. */
  method Conclude(log: RunLog, w: World) returns (ok: bool)
    requires Open(log.events)
    modifies log
    ensures WellBracketed(log.events)
    ensures ok <==> AllOk(EndStages(w))
    ensures log.events
            == old(log.events) + LimitNote(w) + [Finished(FirstFailure(EndStages(w)), w.calls, ok, w.stdout, w.stderr)]
  {
    ghost var st := EndStages(w);
    ok := false;
    if !w.tornDown {
      FailsAt(st, 0);
      log.FinishError(TeardownError, w.calls, w.stdout, w.stderr);
      return;
    }
    match w.wait {
      case Timeout =>
        FailsAt(st, 1);
        log.Append(LimitHit(true));
        log.FinishError(TimedOut, w.calls, w.stdout, w.stderr);
        return;
      case OutputLimit =>
        FailsAt(st, 2);
        log.Append(LimitHit(false));
        log.FinishError(ResourceLimit, w.calls, w.stdout, w.stderr);
        return;
      case OtherError =>
        FailsAt(st, 3);
        log.FinishError(RuntimeError, w.calls, w.stdout, w.stderr);
        return;
      case Exited(code) =>
        if code != Some(0) {
          FailsAt(st, 4);
          log.FinishError(ExecutionError, w.calls, w.stdout, w.stderr);
          return;
        }
    }
    if !w.resultParses {
      FailsAt(st, 5);
      log.FinishError(InvalidResult, w.calls, w.stdout, w.stderr);
      return;
    }
    if !w.withinLimits {
      FailsAt(st, 6);
      log.FinishError(ResourceLimit, w.calls, w.stdout, w.stderr);
      return;
    }
    NoneFails(st);
    log.Append(Finished(Fine, w.calls, true, w.stdout, w.stderr));
    ok := true;
  }

  lemma {:induction false} StagesJoin(w: World)
    ensures FirstFailure(Stages(w))
            == if !AllOk(SetupStages(w)) then FirstFailure(SetupStages(w))
               else if !AllOk(ImageStages(w.images)) then FirstFailure(ImageStages(w.images))
               else if !AllOk(LaunchStages(w)) then FirstFailure(LaunchStages(w))
               else FirstFailure(EndStages(w))
    ensures AllOk(Stages(w))
            <==> AllOk(SetupStages(w)) && AllOk(ImageStages(w.images)) && AllOk(LaunchStages(w)) && AllOk(EndStages(w))
  {
    FirstFailureJoin(LaunchStages(w), EndStages(w));
    FirstFailureJoin(ImageStages(w.images), LaunchStages(w) + EndStages(w));
    FirstFailureJoin(SetupStages(w), ImageStages(w.images) + (LaunchStages(w) + EndStages(w)));
  }

  /** `execute_plan`: whatever happens at any stage, an execution whose start is
      recorded is closed by exactly one terminal event, as the last one; that
      event carries the outcome of the first stage to fail, and success is
      reported and recorded exactly when every stage went well. */
  method ExecutePlan(w: World) returns (log: RunLog, ok: bool)
    ensures fresh(log)
    ensures !w.created ==> log.events == [] && !ok
    ensures w.created ==> WellBracketed(log.events) && log.events == Trace(w)
    ensures w.created ==> log.events[|log.events| - 1].outcome == FirstFailure(Stages(w))
    ensures w.created ==> (ok <==> AllOk(Stages(w)))
    ensures w.created ==> (log.events[|log.events| - 1].hasResult <==> ok)
  {
    log := new RunLog();
    ok := false;
    if !w.created {
      return;
    }
    StagesJoin(w);
    log.Append(Started);
    var failure := Setup(w);
    if failure == Fine {
      failure := AcquireImages(log, w.images);
      if failure == Fine {
        failure := Launch(w);
        if failure == Fine {
          ok := Conclude(log, w);
          return;
        }
      }
    }
    ShortTrace(w);
    CloseOpen(log.events, Finished(failure, 0, false, 0, 0));
    log.FinishError(failure, 0, 0, 0);
  }

  /** Everything the run depends on went well. */
  predicate EverythingFine(w: World) {
    && w.prepares && w.tokenWritten && w.dockerConnects
    && w.bindReadable && w.bindChosen && w.relayStarts && w.noneSkipped && w.hostsClassified
    && w.rulesetEncodes && w.rulesetWritten && w.appReadOnly && w.spoolStarts
    && (forall i :: 0 <= i < |w.images| ==> w.images[i].ok)
    && w.lockdownStarts && w.containerStarts
    && w.tornDown && w.wait == Exited(Some(0)) && w.resultParses && w.withinLimits
  }

  /** No stage's failure is spelled as success, so the recorded outcome is `ok`
      exactly when every setup stage, every image, the wait, the teardown, the exit
      code, the result and the limits were good. */
  lemma {:induction false} FineOutcomeMeansEverything(w: World)
    ensures FirstFailure(Stages(w)) == Fine <==> EverythingFine(w)
  {
    ImageFailures(w.images);
    FineMeansAllOk(Stages(w));
    StagesJoin(w);
    SetupMeans(w);
    ImagesMean(w.images);
    AllOkMeans(LaunchStages(w));
    AllOkMeans(EndStages(w));
    TwoStages(w);
    SevenStages(w);
  }

  lemma {:induction false} SetupMeans(w: World)
    ensures AllOk(SetupStages(w))
            <==> && w.prepares && w.tokenWritten && w.dockerConnects
                 && w.bindReadable && w.bindChosen && w.relayStarts && w.noneSkipped && w.hostsClassified
                 && w.rulesetEncodes && w.rulesetWritten && w.appReadOnly && w.spoolStarts
  {
    FirstFailureJoin(RelayStages(w), RulesetStages(w));
    FirstFailureJoin(PrepareStages(w), RelayStages(w) + RulesetStages(w));
    var p, r, u := PrepareStages(w), RelayStages(w), RulesetStages(w);
    AllOkMeans(p);
    AllOkMeans(r);
    AllOkMeans(u);
    assert p[0].ok == w.prepares && p[1].ok == w.tokenWritten && p[2].ok == w.dockerConnects;
    assert r[0].ok == w.bindReadable && r[1].ok == w.bindChosen && r[2].ok == w.relayStarts;
    assert r[3].ok == w.noneSkipped && r[4].ok == w.hostsClassified;
    assert u[0].ok == w.rulesetEncodes && u[1].ok == w.rulesetWritten && u[2].ok == w.appReadOnly;
    assert u[3].ok == w.spoolStarts;
  }

  lemma {:induction false} TwoStages(w: World)
    ensures (forall i :: 0 <= i < |LaunchStages(w)| ==> LaunchStages(w)[i].ok)
            <==> w.lockdownStarts && w.containerStarts
  {
    var st := LaunchStages(w);
    assert st[0].ok == w.lockdownStarts && st[1].ok == w.containerStarts;
  }

  lemma {:induction false} SevenStages(w: World)
    ensures (forall i :: 0 <= i < |EndStages(w)| ==> EndStages(w)[i].ok)
            <==> w.tornDown && w.wait == Exited(Some(0)) && w.resultParses && w.withinLimits
  {
    var st := EndStages(w);
    assert st[0].ok == w.tornDown && st[5].ok == w.resultParses && st[6].ok == w.withinLimits;
    assert st[1].ok == !w.wait.Timeout? && st[2].ok == !w.wait.OutputLimit? && st[3].ok == w.wait.Exited?;
    assert st[4].ok == (w.wait == Exited(Some(0)));
  }

  lemma {:induction false} ImagesMean(images: seq<Image>)
    ensures AllOk(ImageStages(images)) <==> forall i :: 0 <= i < |images| ==> images[i].ok
  {
    if images == [] {
    } else {
      ImagesMean(images[1..]);
      assert forall i :: 1 <= i < |images| ==> images[i] == images[1..][i - 1];
      assert forall i :: 0 <= i < |images[1..]| ==> images[1..][i] == images[i + 1];
    }
  }

  lemma {:induction false} ImageFailures(images: seq<Image>)
    ensures forall i :: 0 <= i < |ImageStages(images)| ==> !ImageStages(images)[i].failure.Fine?
  {
    if images == [] {
    } else {
      ImageFailures(images[1..]);
    }
  }

  lemma {:induction false} AllOkMeans(stages: seq<Stage>)
    ensures AllOk(stages) <==> forall i :: 0 <= i < |stages| ==> stages[i].ok
  {
    if stages == [] {
    } else {
      AllOkMeans(stages[1..]);
      assert forall i :: 1 <= i < |stages| ==> stages[i] == stages[1..][i - 1];
      assert forall i :: 0 <= i < |stages[1..]| ==> stages[1..][i] == stages[i + 1];
    }
  }
}
