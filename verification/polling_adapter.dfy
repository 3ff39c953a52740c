/** A polling protocol adapter: the hooks the polling scheduler calls (a sampler's
    execute, error and close), the publish path each sample takes, and stop.
    Futures are modelled as completed at once: the acquisition result and the outcome of
    the publish are inputs, and their continuations run as one sequential step. */
module PollingAdapter {
  import opened Common

  /** A data sample; data and topic are nullable references, QoS is a Java `int`. */
  datatype Sample = Sample(data: Option<Bytes>, topic: Option<string>, qos: int)

  /** Which `Preconditions` check rejected a sample. */
  datatype ValidationError = NullSample | NullData | NullTopic | InvalidQos

  /** The only severity the adapter fires itself. */
  datatype Severity = Info

  /** The message of an event, kept as the template and the value that fills it. */
  datatype EventMessage = FirstSampleTo(topic: string)

  datatype Event = Event(severity: Severity, message: EventMessage, payload: Bytes)

  /** A publish handed to the adapter publish service. */
  datatype PublishRequest = PublishRequest(topic: string, payload: Bytes, qos: int)

  /** How `captureDataSample` ends: thrown synchronously by a check, a failed future from
      its `catch` (the conversion to JSON threw, or a collaborator threw after the count
      went up), or the publish future with its outcome. */
  datatype CaptureResult = Rejected(reason: ValidationError) | ConversionFailed | CollaboratorFailed
                         | Published(succeeded: bool)

  /** How the collaborators behave in one `captureDataSample` once the sample is converted:
      whether building or firing the first-sample event throws (`generateJsonPayload` or
      `fireEvent`; asked only on the first count), whether `publish()` up to `send()`
      throws, and otherwise whether the publish future succeeds. */
  datatype Collaborators = Collaborators(eventThrows: bool, sendThrows: bool, publishSucceeds: bool)

  /** The polling part of the adapter configuration. */
  datatype PollingConfig = PollingConfig(pollingIntervalMillis: int, maxPollingErrorsBeforeRemoval: int)

  /** A sampler as handed to the scheduler: the adapter it belongs to, its cadence in
      milliseconds, the number of errors before removal, and the configuration it
      passes to `onSamplerInvoked`. */
  datatype Sampler = Sampler(adapterId: string, initialDelayMillis: int, periodMillis: int,
                             maxErrorsBeforeRemoval: int, config: PollingConfig)

  /** How the future returned by `onSamplerInvoked` completes: with a (nullable) sample,
      or exceptionally. */
  datatype Acquisition = Acquired(sample: Option<Sample>) | AcquisitionFailed(cause: string)

  /** What `Sampler.execute` returns: a future failed with an InterruptedException, or
      the acquisition future itself. */
  datatype SampleFuture = InterruptedFailure | DataFuture(data: Acquisition)

  /** The connection status the adapter reports; only the error status is set here. */
  datatype ConnectionStatus = StatusUnknown | StatusError(cause: string)

  /** The publish-side state of one adapter: `publishCount`, the events fired, the
      publishes handed to the publish service, and the read-publish success and failure
      counters of the metrics helper. */
  datatype PublishState = PublishState(publishCount: nat, events: seq<Event>, published: seq<PublishRequest>,
                                       successes: nat, failures: nat)

  /** The checks `captureDataSample` runs before its `try`. */
  predicate IsValidSample(sample: Option<Sample>)
  {
    && sample.Some?
    && sample.value.data.Some?
    && sample.value.topic.Some?
    && 0 <= sample.value.qos <= 2
  }

  /** The first check a sample fails, in the order the checks run. */
  function Validation(sample: Option<Sample>): ValidationError
    requires !IsValidSample(sample)
  {
    if sample.None? then NullSample
    else if sample.value.data.None? then NullData
    else if sample.value.topic.None? then NullTopic
    else InvalidQos
  }

  /** The fixed text of the first-sample template, up to and including the opening quote. */
  const FirstSampleTemplate := "Adapter took first sample to be published to '"

  /** The text of an event message, as `String.format` fills the template: the template's
      fixed text, then the topic, then the closing quote. */
  function MessageText(m: EventMessage): (t: string)
    ensures |t| == |FirstSampleTemplate| + |m.topic| + 1
    ensures t[..|FirstSampleTemplate|] == FirstSampleTemplate
    ensures t[|FirstSampleTemplate|..|t| - 1] == m.topic && t[|t| - 1] == '\''
  {
    match m
    case FirstSampleTo(topic) =>
      var t := FirstSampleTemplate + topic + "'";
      assert t[..|FirstSampleTemplate|] == FirstSampleTemplate;
      assert t[|FirstSampleTemplate|..|t| - 1] == topic;
      t
  }

  /** `captureDataSample` on `st`, with `convertToJson` the adapter's conversion (None when it
      throws) and `c` what the collaborators do. Everything after the conversion sits in
      the same `try`: once the count has gone up, a throwing collaborator ends the call
      with a failed future and whatever it had not yet done stays undone. */
  function CaptureEffect(st: PublishState, sample: Option<Sample>, convertToJson: Sample -> Option<Bytes>,
                         c: Collaborators): (PublishState, CaptureResult)
  {
    if !IsValidSample(sample) then (st, Rejected(Validation(sample)))
    else
      var s := sample.value;
      match convertToJson(s)
      case None => (st, ConversionFailed)
      case Some(json) =>
        var count := st.publishCount + 1;
        if count == 1 && c.eventThrows then (st.(publishCount := count), CollaboratorFailed)
        else
          var events := if count == 1 then st.events + [Event(Info, FirstSampleTo(s.topic.value), json)]
                        else st.events;
          if c.sendThrows then (st.(publishCount := count, events := events), CollaboratorFailed)
          else
            (PublishState(count, events, st.published + [PublishRequest(s.topic.value, json, s.qos)],
                          st.successes + (if c.publishSucceeds then 1 else 0),
                          st.failures + (if c.publishSucceeds then 0 else 1)),
             Published(c.publishSucceeds))
  }

  /** A null sample, data or topic, or a QoS outside 0..2, is rejected synchronously by the
      first check it fails, and nothing is counted, fired or published. */
  lemma InvalidSampleChangesNothing(st: PublishState, sample: Option<Sample>,
                                    convertToJson: Sample -> Option<Bytes>, c: Collaborators)
    ensures var (st', r) := CaptureEffect(st, sample, convertToJson, c);
      r.Rejected? <==> !IsValidSample(sample)
    ensures !IsValidSample(sample) ==>
      CaptureEffect(st, sample, convertToJson, c) == (st, Rejected(Validation(sample)))
    ensures sample.Some? && !(0 <= sample.value.qos <= 2) ==>
      CaptureEffect(st, sample, convertToJson, c).1.Rejected?
  {
  }

  /** A conversion that throws gives a failed future and counts nothing. A valid sample
      whose conversion succeeds is counted exactly once; it is handed to the publish
      service exactly once, with the sample's topic and QoS and the converted payload,
      unless the first-sample event or the publish call throws, which gives a failed
      future and publishes nothing. */
  lemma ValidSamplePublishedOnce(st: PublishState, sample: Option<Sample>,
                                 convertToJson: Sample -> Option<Bytes>, c: Collaborators)
    requires IsValidSample(sample)
    ensures var (st', r) := CaptureEffect(st, sample, convertToJson, c);
      var s := sample.value;
      && (convertToJson(s).None? ==> st' == st && r == ConversionFailed)
      && (convertToJson(s).Some? ==>
            && st'.publishCount == st.publishCount + 1
            && (r.Published? <==> !c.sendThrows && !(st.publishCount == 0 && c.eventThrows))
            && (r.Published? ==>
                  && st'.published == st.published + [PublishRequest(s.topic.value, convertToJson(s).value, s.qos)]
                  && r == Published(c.publishSucceeds))
            && (!r.Published? ==> r == CollaboratorFailed && st'.published == st.published))
  {
  }

  /** A publish that was handed over is counted once: success bumps only the success
      counter and failure only the failure counter, with no retry. When a collaborator
      threw first, neither counter moves. */
  lemma PublishOutcomeCounted(st: PublishState, sample: Option<Sample>,
                              convertToJson: Sample -> Option<Bytes>, c: Collaborators)
    requires IsValidSample(sample) && convertToJson(sample.value).Some?
    ensures var (st', r) := CaptureEffect(st, sample, convertToJson, c);
      && (r.Published? ==>
            && |st'.published| == |st.published| + 1
            && (c.publishSucceeds ==> st'.successes == st.successes + 1 && st'.failures == st.failures)
            && (!c.publishSucceeds ==> st'.failures == st.failures + 1 && st'.successes == st.successes))
      && (!r.Published? ==>
            st'.published == st.published && st'.successes == st.successes && st'.failures == st.failures)
  {
  }

  /** The INFO event fires exactly when the count goes from 0 to 1 and building or firing
      it does not throw; a later throw in the publish call does not take it back. */
  lemma FirstSampleEventIffFirstCount(st: PublishState, sample: Option<Sample>,
                                      convertToJson: Sample -> Option<Bytes>, c: Collaborators)
    ensures var st' := CaptureEffect(st, sample, convertToJson, c).0;
      && (st'.events != st.events <==> st.publishCount == 0 && st'.publishCount == 1 && !c.eventThrows)
      && (st'.events != st.events ==>
            st'.events == st.events + [Event(Info, FirstSampleTo(sample.value.topic.value),
                                             convertToJson(sample.value).value)])
  {
  }

  /** One call of `captureDataSample` in a run of them. */
  datatype Capture = Capture(sample: Option<Sample>, collaborators: Collaborators)

  /** The publish state after a run of captures, in order. */
  function CaptureAll(st: PublishState, run: seq<Capture>, convertToJson: Sample -> Option<Bytes>): PublishState
    decreases |run|
  {
    if run == [] then st
    else CaptureAll(CaptureEffect(st, run[0].sample, convertToJson, run[0].collaborators).0, run[1..], convertToJson)
  }

  /** The accounting every run starting from a fresh adapter keeps: at most one
      first-sample event, and none before anything was counted; no more publishes than
      counted samples; every publish counted once as a success or a failure. */
  predicate Accounted(st: PublishState)
  {
    && |st.events| <= 1
    && (st.publishCount == 0 ==> st.events == [])
    && |st.published| <= st.publishCount
    && st.successes + st.failures == |st.published|
  }

  /** The accounting of a run whose collaborators never threw: the first-sample event
      fired once something was counted, and every counted sample was published. */
  predicate ExactlyAccounted(st: PublishState)
  {
    && |st.events| == (if st.publishCount == 0 then 0 else 1)
    && |st.published| == st.publishCount
    && st.successes + st.failures == st.publishCount
  }

  /** However many samples a fresh adapter captures, whatever its collaborators do, it
      fires at most one first-sample event, publishes at most the samples it counted, and
      counts every publish once as a success or a failure. */
  lemma {:induction false} CaptureRunAccounted(st: PublishState, run: seq<Capture>,
                                               convertToJson: Sample -> Option<Bytes>)
    requires Accounted(st)
    ensures Accounted(CaptureAll(st, run, convertToJson))
    decreases |run|
  {
    if run != [] {
      var st' := CaptureEffect(st, run[0].sample, convertToJson, run[0].collaborators).0;
      assert Accounted(st');
      CaptureRunAccounted(st', run[1..], convertToJson);
    }
  }

  /** When no collaborator throws, a fresh adapter fires the first-sample event exactly
      once something was counted, and publishes every sample it counted. */
  lemma {:induction false} CaptureRunWithoutThrows(st: PublishState, run: seq<Capture>,
                                                   convertToJson: Sample -> Option<Bytes>)
    requires ExactlyAccounted(st)
    requires forall i :: 0 <= i < |run| ==> !run[i].collaborators.eventThrows && !run[i].collaborators.sendThrows
    ensures ExactlyAccounted(CaptureAll(st, run, convertToJson))
    decreases |run|
  {
    if run != [] {
      var st' := CaptureEffect(st, run[0].sample, convertToJson, run[0].collaborators).0;
      assert ExactlyAccounted(st');
      CaptureRunWithoutThrows(st', run[1..], convertToJson);
    }
  }

  /** The scheduler's side, as far as the adapter uses it: the jobs it holds and the
      `stopPolling` calls it received. */
  class PollingService {
    var jobs: seq<Sampler>
    var stopped: seq<Sampler>

    constructor (jobs: seq<Sampler>)
      ensures this.jobs == jobs && stopped == []
    {
      this.jobs := jobs;
      stopped := [];
    }

    /** `stopPolling(sampler)`, recorded. */
    method StopPolling(sampler: Sampler)
      modifies this`stopped
      ensures stopped == old(stopped) + [sampler]
    {
      stopped := stopped + [sampler];
    }
  }

  /** `getPollingJobsForAdapter(adapterId)`: the jobs of one adapter, in order. */
  function JobsForAdapter(jobs: seq<Sampler>, adapterId: string): seq<Sampler>
  {
    if jobs == [] then []
    else (if jobs[0].adapterId == adapterId then [jobs[0]] else []) + JobsForAdapter(jobs[1..], adapterId)
  }

  /** The jobs of an adapter are exactly the jobs with its id. */
  lemma {:induction false} JobsForAdapterExactly(jobs: seq<Sampler>, adapterId: string)
    ensures forall s :: s in JobsForAdapter(jobs, adapterId) <==> s in jobs && s.adapterId == adapterId
  {
    if jobs != [] {
      JobsForAdapterExactly(jobs[1..], adapterId);
      assert jobs == [jobs[0]] + jobs[1..];
    }
  }

  /** What `bindServices` receives: the module services and the polling service they hand out. */
  datatype ModuleServices = ModuleServices(pollingService: PollingService?)

  /** Why `stop` or `bindServices` ended exceptionally. */
  datatype AdapterError = NullModuleServices | NullPollingService

  class PollingProtocolAdapter {
    /** `getId()`. */
    const id: string
    /** The subclass's `convertToJson`; None when it throws. */
    const convertToJson: Sample -> Option<Bytes>

    var pollingService: PollingService?
    var publishCount: nat
    /** Events fired to the event service. */
    var events: seq<Event>
    /** Publishes handed to the adapter publish service. */
    var published: seq<PublishRequest>
    var readPublishSuccess: nat
    var readPublishFailure: nat
    var connectionStatus: ConnectionStatus
    /** The configurations `onSamplerInvoked` was called with. */
    var samplerInvocations: seq<PollingConfig>
    /** The samplers `onSamplerClosed` was called with. */
    var closedSamplers: seq<Sampler>
    /** How often `stop()` ran (its call of `super.stop()` is not modelled). */
    var stopCount: nat

    function PublishView(): PublishState
      reads this
    {
      PublishState(publishCount, events, published, readPublishSuccess, readPublishFailure)
    }

    ghost predicate Valid()
      reads this
    {
      Accounted(PublishView())
    }

    constructor (id: string, convertToJson: Sample -> Option<Bytes>)
      ensures Valid()
      ensures publishCount == 0 && events == [] && published == [] && readPublishSuccess == 0 && readPublishFailure == 0
      ensures this.id == id && this.convertToJson == convertToJson
      ensures pollingService == null && connectionStatus == StatusUnknown
      ensures samplerInvocations == [] && closedSamplers == [] && stopCount == 0
    {
      this.id := id;
      this.convertToJson := convertToJson;
      pollingService := null;
      publishCount, events, published := 0, [], [];
      readPublishSuccess, readPublishFailure := 0, 0;
      connectionStatus := StatusUnknown;
      samplerInvocations, closedSamplers, stopCount := [], [], 0;
    }

    /** `bindServices`: a null argument throws; the polling service is taken from the
        module services only if none is bound yet. */
    method BindServices(moduleServices: Option<ModuleServices>) returns (r: Outcome<AdapterError>)
      modifies this
      ensures PublishView() == old(PublishView()) && connectionStatus == old(connectionStatus)
      ensures samplerInvocations == old(samplerInvocations) && closedSamplers == old(closedSamplers)
      ensures stopCount == old(stopCount)
      ensures moduleServices.None? ==> r == Fail(NullModuleServices) && pollingService == old(pollingService)
      ensures moduleServices.Some? ==>
        && r == Pass
        && pollingService == (if old(pollingService) == null then moduleServices.value.pollingService
                              else old(pollingService))
    {
      if moduleServices.None? {
        return Fail(NullModuleServices);
      }
      r := Pass;
      if pollingService == null {
        pollingService := moduleServices.value.pollingService;
      }
    }

    /** The `Sampler` constructor: initial delay and period are both the polling interval,
        and the error limit is `maxPollingErrorsBeforeRemoval`. */
    function NewSampler(config: PollingConfig): (s: Sampler)
      ensures s.adapterId == id && s.config == config
      ensures s.initialDelayMillis == s.periodMillis == config.pollingIntervalMillis
      ensures s.maxErrorsBeforeRemoval == config.maxPollingErrorsBeforeRemoval
    {
      Sampler(id, config.pollingIntervalMillis, config.pollingIntervalMillis,
              config.maxPollingErrorsBeforeRemoval, config)
    }

    /** `captureDataSample`. */
    method CaptureDataSample(sample: Option<Sample>, c: Collaborators) returns (r: CaptureResult)
      requires Valid()
      modifies this
      ensures Valid()
      ensures (PublishView(), r) == CaptureEffect(old(PublishView()), sample, convertToJson, c)
      ensures pollingService == old(pollingService) && connectionStatus == old(connectionStatus)
      ensures samplerInvocations == old(samplerInvocations) && closedSamplers == old(closedSamplers)
      ensures stopCount == old(stopCount)
    {
      if sample.None? {
        return Rejected(NullSample);
      }
      var s := sample.value;
      if s.data.None? {
        return Rejected(NullData);
      }
      if s.topic.None? {
        return Rejected(NullTopic);
      }
      if !(s.qos <= 2 && s.qos >= 0) {
        return Rejected(InvalidQos);
      }
      var json := convertToJson(s);
      if json.None? {
        return ConversionFailed;
      }
      publishCount := publishCount + 1;
      if publishCount == 1 {
        if c.eventThrows {
          return CollaboratorFailed;
        }
        events := events + [Event(Info, FirstSampleTo(s.topic.value), json.value)];
      }
      if c.sendThrows {
        return CollaboratorFailed;
      }
      published := published + [PublishRequest(s.topic.value, json.value, s.qos)];
      if c.publishSucceeds {
        readPublishSuccess := readPublishSuccess + 1;
      } else {
        readPublishFailure := readPublishFailure + 1;
      }
      r := Published(c.publishSucceeds);
    }

    /** `Sampler.execute`, on a sampler of this adapter (the Java `Sampler` is an inner
        class the adapter builds, see `NewSampler`): an interrupted thread fails at once
        without calling `onSamplerInvoked`; otherwise the acquisition future is returned, and a sample it
        completes with is passed on to `captureDataSample`, whose result is dropped. */
    method ExecuteSampler(sampler: Sampler, interrupted: bool, acquisition: Acquisition, c: Collaborators)
      returns (r: SampleFuture)
      requires sampler.adapterId == id
      requires Valid()
      modifies this
      ensures Valid()
      ensures interrupted ==> r == InterruptedFailure && samplerInvocations == old(samplerInvocations)
                              && PublishView() == old(PublishView())
      ensures !interrupted ==> r == DataFuture(acquisition)
                               && samplerInvocations == old(samplerInvocations) + [sampler.config]
      ensures !interrupted && acquisition.Acquired? ==>
        PublishView() == CaptureEffect(old(PublishView()), acquisition.sample, convertToJson, c).0
      ensures !interrupted && acquisition.AcquisitionFailed? ==> PublishView() == old(PublishView())
      ensures pollingService == old(pollingService) && connectionStatus == old(connectionStatus)
      ensures closedSamplers == old(closedSamplers) && stopCount == old(stopCount)
    {
      if interrupted {
        return InterruptedFailure;
      }
      samplerInvocations := samplerInvocations + [sampler.config];
      if acquisition.Acquired? {
        var _ := CaptureDataSample(acquisition.sample, c);
      }
      r := DataFuture(acquisition);
    }

    /** `stop`: after the base class has stopped, every polling job of this adapter is
        stopped, in the order the polling service lists them; with no polling service
        bound, the stop future fails with a NullPointerException. */
    method Stop() returns (r: Outcome<AdapterError>)
      modifies this, pollingService
      ensures stopCount == old(stopCount) + 1
      ensures PublishView() == old(PublishView()) && pollingService == old(pollingService)
      ensures connectionStatus == old(connectionStatus) && samplerInvocations == old(samplerInvocations)
      ensures closedSamplers == old(closedSamplers)
      ensures pollingService == null ==> r == Fail(NullPollingService)
      ensures pollingService != null ==>
        && r == Pass
        && pollingService.jobs == old(pollingService.jobs)
        && pollingService.stopped == old(pollingService.stopped) + JobsForAdapter(old(pollingService.jobs), id)
    {
      stopCount := stopCount + 1;
      if pollingService == null {
        return Fail(NullPollingService);
      }
      var service := pollingService;
      var jobs := JobsForAdapter(service.jobs, id);
      var i := 0;
      while i < |jobs|
        modifies service
        invariant 0 <= i <= |jobs|
        invariant pollingService == service && stopCount == old(stopCount) + 1
        invariant service.jobs == old(service.jobs)
        invariant service.stopped == old(service.stopped) + jobs[..i]
      {
        service.StopPolling(jobs[i]);
        i := i + 1;
      }
      r := Pass;
    }

    /** `onSamplerError`, which `Sampler.error` delegates to: the error status is always
        set, and the adapter is stopped iff the scheduler will not continue the sampler. */
    method OnSamplerError(sampler: Sampler, cause: string, continuing: bool)
      requires sampler.adapterId == id
      modifies this, pollingService
      ensures connectionStatus == StatusError(cause)
      ensures PublishView() == old(PublishView()) && pollingService == old(pollingService)
      ensures samplerInvocations == old(samplerInvocations) && closedSamplers == old(closedSamplers)
      ensures stopCount == old(stopCount) + (if continuing then 0 else 1)
      ensures pollingService != null ==> pollingService.jobs == old(pollingService.jobs)
      ensures pollingService != null && continuing ==> pollingService.stopped == old(pollingService.stopped)
      ensures pollingService != null && !continuing ==>
        pollingService.stopped == old(pollingService.stopped) + JobsForAdapter(old(pollingService.jobs), id)
    {
      connectionStatus := StatusError(cause);
      if !continuing {
        var _ := Stop();
      }
    }

    /** `Sampler.close`: the base class's close is not modelled; then `onSamplerClosed`. */
    method CloseSampler(sampler: Sampler)
      requires sampler.adapterId == id
      modifies this
      ensures closedSamplers == old(closedSamplers) + [sampler]
      ensures PublishView() == old(PublishView()) && pollingService == old(pollingService)
      ensures connectionStatus == old(connectionStatus) && samplerInvocations == old(samplerInvocations)
      ensures stopCount == old(stopCount)
    {
      closedSamplers := closedSamplers + [sampler];
    }
  }

  /** A caller that builds its own adapter and has it capture one sample: a sample it
      publishes is its first, so the first-sample event has fired. */
  method CaptureWithFreshAdapter(id: string, convertToJson: Sample -> Option<Bytes>, sample: Option<Sample>,
                                 c: Collaborators)
    returns (adapter: PollingProtocolAdapter, r: CaptureResult)
    ensures fresh(adapter) && adapter.Valid() && adapter.id == id
    ensures r.Published? ==> |adapter.events| == 1 && |adapter.published| == 1 && adapter.publishCount == 1
    ensures r.CollaboratorFailed? ==> adapter.publishCount == 1 && adapter.published == []
    ensures !r.Published? && !r.CollaboratorFailed? ==> adapter.publishCount == 0 && adapter.events == []
  {
    adapter := new PollingProtocolAdapter(id, convertToJson);
    r := adapter.CaptureDataSample(sample, c);
  }

  /** A caller that builds its own adapter and drives one of its samplers through the
      scheduler's hooks: one execution, one error and the close. */
  method SamplerLifecycleOfFreshAdapter(id: string, convertToJson: Sample -> Option<Bytes>, config: PollingConfig,
                                        acquisition: Acquisition, c: Collaborators, cause: string, continuing: bool)
    returns (adapter: PollingProtocolAdapter, sampler: Sampler, r: SampleFuture)
    ensures fresh(adapter) && adapter.Valid()
    ensures sampler.adapterId == id && sampler.config == config
    ensures r == DataFuture(acquisition)
    ensures adapter.samplerInvocations == [config] && adapter.closedSamplers == [sampler]
    ensures adapter.connectionStatus == StatusError(cause)
    ensures adapter.stopCount == (if continuing then 0 else 1)
  {
    adapter := new PollingProtocolAdapter(id, convertToJson);
    sampler := adapter.NewSampler(config);
    r := adapter.ExecuteSampler(sampler, false, acquisition, c);
    adapter.OnSamplerError(sampler, cause, continuing);
    adapter.CloseSampler(sampler);
  }
}
