/**
 * The state of the application component that the research, navigation
 * and contract-generation handlers update, and the staged research run.
 *
 * The text-generation backend is a parameter: a total function from the
 * request of one stage to its reply, `Some(text)` or `None` when the call
 * fails. Each awaited call is one application of that function, and the
 * handlers run to completion before any other event is handled.
 */
module App {

  import opened Wrappers
  import opened Types
  import opened GeminiService
  import Page

  /** What the backend answers to one research-stage request. */
  type Backend = StageRequest -> Option<string>

  /** The running text `cumulativeText`: the outputs appended one after another. */
  function Concat(outputs: seq<string>): (text: string)
    ensures outputs == [] ==> text == []
  {
    if outputs == [] then [] else Concat(outputs[..|outputs| - 1]) + outputs[|outputs| - 1]
  }

  /** The running text of two runs of outputs is their running texts one after the other. */
  lemma {:induction false} ConcatAppend(outputs: seq<string>, more: seq<string>)
    ensures Concat(outputs + more) == Concat(outputs) + Concat(more)
    decreases |more|
  {
    if more != [] {
      var init := more[..|more| - 1];
      assert (outputs + more)[..|outputs + more| - 1] == outputs + init;
      ConcatAppend(outputs, init);
    } else {
      assert outputs + more == outputs;
    }
  }

  /** The outputs of those stages among 1..k that a run reaches and that
      succeed: stage k is requested only when all of 1..k-1 succeeded, with
      the running text of their outputs as context. */
  function Successes(topic: string, backend: Backend, k: nat): (outputs: seq<string>)
    requires k <= StageCount
    ensures |outputs| <= k
    decreases k
  {
    if k == 0 then []
    else
      var earlier := Successes(topic, backend, k - 1);
      if |earlier| < k - 1 then earlier
      else match backend(BuildStageRequest(topic, k, Concat(earlier)))
        case Some(text) => earlier + [text]
        case None => earlier
  }

  /** After the first failure no later stage adds anything. */
  lemma {:induction false} SuccessesStopAfterFailure(topic: string, backend: Backend, k: nat, m: nat)
    requires k <= m <= StageCount
    requires |Successes(topic, backend, k)| < k
    ensures Successes(topic, backend, m) == Successes(topic, backend, k)
    decreases m
  {
    if m > k {
      SuccessesStopAfterFailure(topic, backend, k, m - 1);
      var earlier := Successes(topic, backend, m - 1);
      assert |earlier| < m - 1;
    }
  }

  /** A run that completed stage k has completed every earlier stage with the same outputs. */
  lemma {:induction false} SuccessesPrefix(topic: string, backend: Backend, j: nat, k: nat)
    requires j <= k <= StageCount
    requires |Successes(topic, backend, k)| == k
    ensures Successes(topic, backend, j) == Successes(topic, backend, k)[..j]
    decreases k
  {
    if j < k {
      var earlier := Successes(topic, backend, k - 1);
      assert |earlier| == k - 1;
      SuccessesPrefix(topic, backend, j, k - 1);
    }
  }

  /** The requests a run sends for stages 1..n, given the outputs it has
      collected: the request of stage s carries the running text of the
      outputs of stages 1..s-1. */
  function Calls(topic: string, outputs: seq<string>, n: nat): (calls: seq<StageRequest>)
    requires n <= |outputs| + 1
    ensures |calls| == n
    ensures forall i :: 0 <= i < n ==> calls[i].stage == i + 1 && calls[i].topic == topic
  {
    if n == 0 then []
    else Calls(topic, outputs, n - 1) + [BuildStageRequest(topic, n, Concat(outputs[..n - 1]))]
  }

  /** Outputs collected later do not change the requests already sent. */
  lemma {:induction false} CallsIgnoreLaterOutputs(topic: string, outputs: seq<string>, more: seq<string>, n: nat)
    requires n <= |outputs| + 1
    ensures Calls(topic, outputs + more, n) == Calls(topic, outputs, n)
  {
    if n > 0 {
      CallsIgnoreLaterOutputs(topic, outputs, more, n - 1);
      assert (outputs + more)[..n - 1] == outputs[..n - 1];
    }
  }

  /** Request `i` of a run carries the running text of the outputs before it. */
  lemma {:induction false} CallsAt(topic: string, outputs: seq<string>, n: nat, i: nat)
    requires n <= |outputs| + 1 && i < n
    ensures Calls(topic, outputs, n)[i] == BuildStageRequest(topic, i + 1, Concat(outputs[..i]))
  {
    if i < n - 1 {
      CallsAt(topic, outputs, n - 1, i);
    }
  }

  /** Output `i` is the backend's reply to the request of stage i + 1, built
      from the outputs before it. */
  predicate RepliedAt(topic: string, backend: Backend, outputs: seq<string>, i: nat)
    requires i < |outputs|
  {
    backend(BuildStageRequest(topic, i + 1, Concat(outputs[..i]))) == Some(outputs[i])
  }

  /** Appending an output keeps the earlier outputs' replies. */
  lemma RepliedAtAppend(topic: string, backend: Backend, earlier: seq<string>, reply: string, i: nat)
    requires i < |earlier| && RepliedAt(topic, backend, earlier, i)
    ensures RepliedAt(topic, backend, earlier + [reply], i)
  {
    assert (earlier + [reply])[..i] == earlier[..i];
  }

  /** Every recorded output is the backend's reply to its own stage's
      request, whose context comes from the outputs of the earlier stages only. */
  lemma {:induction false} SuccessesAreReplies(topic: string, backend: Backend, k: nat)
    requires k <= StageCount
    ensures var outputs := Successes(topic, backend, k);
      forall i :: 0 <= i < |outputs| ==> RepliedAt(topic, backend, outputs, i)
    decreases k
  {
    if k > 0 {
      var earlier := Successes(topic, backend, k - 1);
      SuccessesAreReplies(topic, backend, k - 1);
      var request := BuildStageRequest(topic, k, Concat(earlier));
      if |earlier| == k - 1 && backend(request).Some? {
        var reply := backend(request).value;
        var outputs := earlier + [reply];
        assert Successes(topic, backend, k) == outputs;
        forall i | 0 <= i < |outputs| ensures RepliedAt(topic, backend, outputs, i) {
          if i < |earlier| {
            RepliedAtAppend(topic, backend, earlier, reply, i);
          } else {
            assert outputs[..i] == earlier;
          }
        }
      } else {
        assert Successes(topic, backend, k) == earlier;
      }
    }
  }

  /** When fewer than k stages succeeded, the stage after the successful
      ones was requested and failed. */
  lemma {:induction false} StoppedStageFailed(topic: string, backend: Backend, k: nat)
    requires k <= StageCount
    ensures var outputs := Successes(topic, backend, k);
      |outputs| < k ==> backend(BuildStageRequest(topic, |outputs| + 1, Concat(outputs))) == None
    decreases k
  {
    if k > 0 {
      var earlier := Successes(topic, backend, k - 1);
      if |earlier| < k - 1 {
        StoppedStageFailed(topic, backend, k - 1);
        assert Successes(topic, backend, k) == earlier;
      } else if backend(BuildStageRequest(topic, k, Concat(earlier))).None? {
        assert Successes(topic, backend, k) == earlier;
      } else {
        assert |Successes(topic, backend, k)| == k;
      }
    }
  }

  /** A backend that never fails lets a run produce one output per stage. */
  lemma {:induction false} ReliableBackendCompletes(topic: string, backend: Backend, k: nat)
    requires k <= StageCount
    requires forall r: StageRequest :: 1 <= r.stage <= StageCount ==> backend(r).Some?
    ensures |Successes(topic, backend, k)| == k
    decreases k
  {
    if k > 0 {
      ReliableBackendCompletes(topic, backend, k - 1);
    }
  }

  /** A backend that answers every stage before k and fails stage k leaves
      exactly k - 1 outputs. */
  lemma {:induction false} FailureAtStage(topic: string, backend: Backend, k: nat)
    requires 1 <= k <= StageCount
    requires forall r: StageRequest :: 1 <= r.stage < k ==> backend(r).Some?
    requires forall r: StageRequest :: r.stage == k ==> backend(r).None?
    ensures |Successes(topic, backend, StageCount)| == k - 1
  {
    SuccessesBeforeFailure(topic, backend, k, k - 1);
    SuccessesStopAfterFailure(topic, backend, k, StageCount);
  }

  /** A backend that fails every call, as with a missing key or no network,
      leaves the run without outputs: only the marker is shown, on stage 1. */
  lemma FailingBackendYieldsNothing(topic: string, backend: Backend)
    requires forall r: StageRequest :: backend(r) == None
    ensures var outputs := Successes(topic, backend, StageCount);
      Sections(outputs) == [Page.ErrorMarker] && StageReached(outputs) == 1
  {
    FailureAtStage(topic, backend, 1);
  }

  lemma {:induction false} SuccessesBeforeFailure(topic: string, backend: Backend, k: nat, j: nat)
    requires j < k <= StageCount
    requires forall r: StageRequest :: 1 <= r.stage < k ==> backend(r).Some?
    requires forall r: StageRequest :: r.stage == k ==> backend(r).None?
    ensures |Successes(topic, backend, j)| == j
    ensures |Successes(topic, backend, j + 1)| == j + 1 <==> j + 1 < k
    decreases j
  {
    if j > 0 {
      SuccessesBeforeFailure(topic, backend, k, j - 1);
    }
  }

  /** One stage of a run that has succeeded so far: the request it sends, and
      what its reply, or its failure, makes of the run. */
  lemma {:induction false} RunStep(topic: string, backend: Backend, s: nat, outputs: seq<string>)
    requires 1 <= s <= StageCount
    requires outputs == Successes(topic, backend, s - 1) && |outputs| == s - 1
    ensures var request := BuildStageRequest(topic, s, Concat(outputs));
      && Calls(topic, outputs, s) == Calls(topic, outputs, s - 1) + [request]
      && (backend(request).None? ==> Successes(topic, backend, StageCount) == outputs)
      && (backend(request).Some? ==>
            var grown := outputs + [backend(request).value];
            && Successes(topic, backend, s) == grown
            && Concat(grown) == Concat(outputs) + backend(request).value
            && Calls(topic, grown, s) == Calls(topic, outputs, s))
  {
    var request := BuildStageRequest(topic, s, Concat(outputs));
    assert outputs[..s - 1] == outputs;
    if backend(request).None? {
      SuccessesStopAfterFailure(topic, backend, s, StageCount);
    } else {
      var grown := outputs + [backend(request).value];
      assert grown[..|grown| - 1] == outputs;
      CallsIgnoreLaterOutputs(topic, outputs, [backend(request).value], s);
    }
  }

  /** The stage a run ends on: the last one requested. */
  function StageReached(outputs: seq<string>): (stage: int)
    requires |outputs| <= StageCount
    ensures 1 <= stage <= StageCount
    ensures |outputs| < StageCount ==> stage == |outputs| + 1
    ensures |outputs| == StageCount ==> stage == StageCount
  {
    if |outputs| == StageCount then StageCount else |outputs| + 1
  }

  /** The sections a run ends with: the outputs, then the error marker when a stage failed. */
  function Sections(outputs: seq<string>): (sections: seq<string>)
    requires |outputs| <= StageCount
    ensures |sections| == StageReached(outputs)
    ensures sections[..|outputs|] == outputs
    ensures |outputs| < StageCount ==> sections[|outputs|] == Page.ErrorMarker
  {
    if |outputs| == StageCount then outputs else outputs + [Page.ErrorMarker]
  }

  /** As written, the download is offered after a run whose last stage
      failed, although its last section is the error marker. */
  lemma PrintOfferedAfterFailedLastStage(topic: string, backend: Backend)
    requires forall r: StageRequest :: 1 <= r.stage < StageCount ==> backend(r).Some?
    requires forall r: StageRequest :: r.stage == StageCount ==> backend(r).None?
    ensures var outputs := Successes(topic, backend, StageCount);
      && Page.PrintOffered(StageReached(outputs), false)
      && Sections(outputs)[StageCount - 1] == Page.ErrorMarker
  {
    FailureAtStage(topic, backend, StageCount);
  }

  /** With the corrected condition the download is offered exactly when all
      five stages succeeded (for a backend that never answers with the
      marker text itself). */
  lemma PrintReadyIffCompleted(topic: string, backend: Backend)
    requires forall r: StageRequest :: backend(r) != Some(Page.ErrorMarker)
    ensures var outputs := Successes(topic, backend, StageCount);
      Page.PrintReady(StageReached(outputs), false, Sections(outputs)) <==> |outputs| == StageCount
  {
    var outputs := Successes(topic, backend, StageCount);
    if |outputs| == StageCount {
      SuccessesAreReplies(topic, backend, StageCount);
      assert RepliedAt(topic, backend, outputs, StageCount - 1);
    }
  }

  /** The reply "S1" .. "S5" of the example backend for stages 1 to 5. */
  function ExampleReply(stage: int): string {
    if stage == 1 then "S1"
    else if stage == 2 then "S2"
    else if stage == 3 then "S3"
    else if stage == 4 then "S4"
    else "S5"
  }

  /** A backend answering "S<k>" to stage k yields exactly those five sections in order. */
  lemma ExampleRunCompletes(topic: string, backend: Backend)
    requires forall r: StageRequest :: backend(r) == Some(ExampleReply(r.stage))
    ensures Sections(Successes(topic, backend, StageCount)) == ["S1", "S2", "S3", "S4", "S5"]
  {
    var outputs := Successes(topic, backend, StageCount);
    ReliableBackendCompletes(topic, backend, StageCount);
    SuccessesAreReplies(topic, backend, StageCount);
    forall i | 0 <= i < StageCount ensures outputs[i] == ExampleReply(i + 1) {
      assert RepliedAt(topic, backend, outputs, i);
    }
    assert outputs == ["S1", "S2", "S3", "S4", "S5"];
  }

  /** The same backend failing stage 3 leaves two sections and the marker, on stage 3. */
  lemma ExampleRunFailsAtStage3(topic: string, backend: Backend)
    requires forall r: StageRequest :: backend(r) == if r.stage == 3 then None else Some(ExampleReply(r.stage))
    ensures var outputs := Successes(topic, backend, StageCount);
      Sections(outputs) == ["S1", "S2", Page.ErrorMarker] && StageReached(outputs) == 3
  {
    var outputs := Successes(topic, backend, StageCount);
    FailureAtStage(topic, backend, 3);
    SuccessesAreReplies(topic, backend, StageCount);
    forall i | 0 <= i < 2 ensures outputs[i] == ExampleReply(i + 1) {
      assert RepliedAt(topic, backend, outputs, i);
    }
    assert outputs == ["S1", "S2"];
  }

  /** The research screen and the other state the modelled handlers touch. */
  class App {
    var currentView: View
    var loading: bool
    var inputText: string
    var analysisFile: Option<string>
    var analysisResult: string
    var selectedContractCat: string
    var researchStage: int
    var fullResearch: seq<string>

    /** The progress figure stays within the five stages, and once a run
        has started the screen shows one section per stage reached. */
    ghost predicate Valid()
      reads this
    {
      && 0 <= researchStage <= StageCount
      && |fullResearch| <= StageCount
      && (researchStage != 0 ==> |fullResearch| == researchStage)
    }

    /** The initial values of the component's state. */
    constructor ()
      ensures Valid()
      ensures currentView == Home && !loading && inputText == [] && analysisFile == None
      ensures analysisResult == [] && selectedContractCat == "financial"
      ensures researchStage == 0 && fullResearch == []
    {
      currentView := Home;
      loading := false;
      inputText := [];
      analysisFile := None;
      analysisResult := [];
      selectedContractCat := "financial";
      researchStage := 0;
      fullResearch := [];
    }

    /** Navigation: switching screens clears the input, the analysis and the research. */
    method SetView(v: View)
      modifies this
      ensures Valid()
      ensures currentView == v && inputText == [] && analysisFile == None && analysisResult == []
      ensures researchStage == 0 && fullResearch == []
      ensures v != Radar ==> loading == old(loading)
      ensures selectedContractCat == old(selectedContractCat)
    {
      currentView := v;
      analysisResult := [];
      analysisFile := None;
      inputText := [];
      researchStage := 0;
      fullResearch := [];
    }

    /** The "cancel and restart" button: it only returns the screen to the
        topic form; the sections already produced are kept. */
    method RestartResearch()
      requires Valid()
      modifies this`researchStage
      ensures Valid()
      ensures researchStage == 0
    {
      researchStage := 0;
    }

    /** Drafting a contract: refused without a backend call for an unknown
        category or one that needs a notary. */
    method HandleGenerateContract(draft: (string, string) -> Option<string>)
      returns (request: Option<(string, string)>)
      requires Valid()
      modifies this`analysisResult, this`loading
      ensures Valid()
      ensures !Page.ContractAllowed(selectedContractCat) ==>
        request == None && analysisResult == Page.RefusalText && loading == old(loading)
      ensures Page.ContractAllowed(selectedContractCat) ==>
        && request.Some?
        && request.value.1 == inputText
        && (exists c :: c in Page.ContractCategories && c.id == selectedContractCat && c.allowed
              && request.value.0 == c.displayLabel)
        && !loading
        && analysisResult == match draft(request.value.0, request.value.1)
                             case Some(text) => text
                             case None => old(analysisResult)
    {
      var cat := Page.FindCategory(Page.ContractCategories, selectedContractCat);
      if !(cat.Some? && cat.value.allowed) {
        analysisResult := Page.RefusalText;
        return None;
      }
      loading := true;
      request := Some((cat.value.displayLabel, inputText));
      var reply := draft(cat.value.displayLabel, inputText);
      if reply.Some? {
        analysisResult := reply.value;
      }
      loading := false;
    }

    /** The staged research run over the topic in `inputText`. It returns the
        requests sent to the backend, in the order they were sent. */
    method HandleResearch(backend: Backend) returns (calls: seq<StageRequest>)
      requires Valid()
      modifies this`loading, this`researchStage, this`fullResearch
      ensures Valid()
      ensures old(inputText) == [] ==>
        calls == [] && loading == old(loading)
        && researchStage == old(researchStage) && fullResearch == old(fullResearch)
      ensures inputText != [] ==>
        var outputs := Successes(inputText, backend, StageCount);
        && !loading
        && fullResearch == Sections(outputs)
        && researchStage == StageReached(outputs)
        && calls == Calls(inputText, outputs, StageReached(outputs))
    {
      calls := [];
      if inputText == [] {
        return;
      }
      loading := true;
      fullResearch := [];
      researchStage := 1;
      var cumulativeText := "";
      var s := 1;
      while s <= StageCount
        invariant 1 <= s <= StageCount + 1
        invariant researchStage == if s == 1 then 1 else s - 1
        invariant fullResearch == Successes(inputText, backend, s - 1) && |fullResearch| == s - 1
        invariant cumulativeText == Concat(fullResearch)
        invariant calls == Calls(inputText, fullResearch, s - 1)
      {
        researchStage := s;
        var request := BuildStageRequest(inputText, s, cumulativeText);
        RunStep(inputText, backend, s, fullResearch);
        calls := calls + [request];
        var reply := backend(request);
        if reply.None? {
          fullResearch := fullResearch + [Page.ErrorMarker];
          break;
        }
        fullResearch := fullResearch + [reply.value];
        cumulativeText := cumulativeText + reply.value;
        s := s + 1;
      }
      loading := false;
    }
  }
}
