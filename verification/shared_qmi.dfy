/**
 * The location-gathering bookkeeping shared by QMI modems: which location
 * sources are enabled, the PDS client kept while the GPS engine runs and
 * the event-report subscription made on it. The PDS service replies and
 * the parent interface's results are parameters; each chain returns the
 * requests it sent, in order.
 */
module SharedQmi {
  import opened Wrappers
  import opened Text

  /** The bits of MMModemLocationSource. */
  datatype LocationSource = Lac3gppCi | GpsRaw | GpsNmea | CdmaBs | GpsUnmanaged | Agps

  /** The sources that need the GPS engine running. */
  const GpsSources: set<LocationSource> := {GpsNmea, GpsRaw}

  /** The sources this implementation handles. */
  const QmiSources: set<LocationSource> := {GpsNmea, GpsRaw, Agps}

  /** A PDS client object, told apart by identity. */
  datatype PdsClient = PdsClient(id: nat)

  /** A GSignal handler id; g_signal_connect never returns 0. */
  type HandlerId = x: int | x > 0 witness 1

  /** QmiPdsOperatingMode */
  datatype OperatingMode = Standalone | MsBased | MsAssisted

  /** The default tracking session as the PDS service reports and takes it. */
  datatype TrackingSession = TrackingSession(operation: OperatingMode, dataTimeout: nat, interval: nat, accuracyThreshold: nat)

  /** A QMI protocol error in a reply; NO_EFFECT is the one some steps accept. */
  datatype ProtocolError = ProtocolError(noEffect: bool, message: string)

  /** A reply: no output at all (transport failure), or an output with its result. */
  datatype QmiReply = TransportFailed(message: string) | Replied(error: Option<ProtocolError>)

  /** The reply to "get default tracking session". */
  datatype SessionReply = SessionTransportFailed(message: string) | SessionReplied(result: Result<TrackingSession, ProtocolError>)

  /** The PDS requests the chains send. */
  datatype PdsRequest =
    | SetGpsServiceState(state: bool)
    | SetAutoTrackingState(state: bool)
    | SetEventReport(nmeaPositionReporting: bool)
    | GetDefaultTrackingSession
    | SetDefaultTrackingSession(session: TrackingSession)

  /** The device's answer to each request a chain may send. */
  datatype PdsReplies = PdsReplies(
    gpsServiceState: QmiReply,
    autoTrackingState: QmiReply,
    eventReport: QmiReply,
    getSession: SessionReply,
    setSession: QmiReply)

  const QmiOperationFailed := "QMI operation failed: "
  const GpsServiceStateFailed := "Couldn't set GPS service state: "
  const AutoTrackingFailed := "Couldn't set auto-tracking state: "
  const EventReportFailed := "Couldn't set event report: "
  const GetSessionFailed := "Couldn't get default tracking session: "
  const SetSessionFailed := "Couldn't set default tracking session: "
  const MissingPdsClient := "missing QMI PDS client"

  /**
   * The error a reply ends a chain with, None when the chain goes on: no
   * output gives "QMI operation failed: ", a protocol error gets `prefix`,
   * and NO_EFFECT counts as success where `noEffectOk`.
   */
  function ReplyError(reply: QmiReply, prefix: string, noEffectOk: bool): (r: Option<string>)
    ensures r.None? <==> reply.Replied? && (reply.error.None? || (noEffectOk && reply.error.value.noEffect))
  {
    match reply
    case TransportFailed(m) => Some(QmiOperationFailed + m)
    case Replied(None) => None
    case Replied(Some(e)) => if noEffectOk && e.noEffect then None else Some(prefix + e.message)
  }

  /** The private state as a value. */
  datatype LocationState = LocationState(enabledSources: set<LocationSource>, pdsClient: Option<PdsClient>, indicationId: nat)

  /**
   * The invariant the g_asserts of the chains rely on: the client is held
   * exactly while the subscription exists, and exactly while some NMEA or
   * RAW source is enabled.
   */
  predicate ValidState(s: LocationState) {
    && (s.pdsClient.Some? <==> s.indicationId != 0)
    && (s.pdsClient.Some? <==> s.enabledSources * GpsSources != {})
  }

  /** What a chain did: the new state, the requests sent, and the error it completed with (None for TRUE). */
  datatype Outcome = Outcome(state: LocationState, requests: seq<PdsRequest>, error: Option<string>)

  /** The sources that reach neither g_assert_not_reached: none handled here, A-GPS alone, or some NMEA/RAW. */
  predicate HandledSource(source: set<LocationSource>) {
    source * QmiSources == {} || source == {Agps} || source * GpsSources != {}
  }

  /**
   * The A-GPS half of both chains: read the tracking session, write it back
   * with `target` (the other fields copied) unless it already has it, then
   * add (enable) or remove (disable) the source.
   */
  function AgpsSpec(s: LocationState, source: set<LocationSource>, replies: PdsReplies, target: OperatingMode, enable: bool): Outcome
  {
    var updated := s.(enabledSources := if enable then s.enabledSources + source else s.enabledSources - source);
    var get := [GetDefaultTrackingSession];
    match replies.getSession
    case SessionTransportFailed(m) => Outcome(s, get, Some(QmiOperationFailed + m))
    case SessionReplied(Failure(e)) => Outcome(s, get, Some(GetSessionFailed + e.message))
    case SessionReplied(Success(info)) =>
      if info.operation == target then Outcome(updated, get, None)
      else
        var sent := get + [SetDefaultTrackingSession(info.(operation := target))];
        var err := ReplyError(replies.setSession, SetSessionFailed, false);
        if err.Some? then Outcome(s, sent, err) else Outcome(updated, sent, None)
  }

  /** The engine start chain: service state on, auto-tracking on, NMEA event report, then subscribe. */
  function StartEngineSpec(s: LocationState, source: set<LocationSource>, client: PdsClient, replies: PdsReplies, handler: HandlerId): Outcome
  {
    var first := [SetGpsServiceState(true)];
    var second := first + [SetAutoTrackingState(true)];
    var third := second + [SetEventReport(true)];
    var e1 := ReplyError(replies.gpsServiceState, GpsServiceStateFailed, true);
    var e2 := ReplyError(replies.autoTrackingState, AutoTrackingFailed, true);
    var e3 := ReplyError(replies.eventReport, EventReportFailed, false);
    if e1.Some? then Outcome(s, first, e1)
    else if e2.Some? then Outcome(s, second, e2)
    else if e3.Some? then Outcome(s, third, e3)
    else Outcome(LocationState(s.enabledSources + source, Some(client), handler), third, None)
  }

  /**
   * mm_shared_qmi_enable_location_gathering after the parent's enable:
   * `parentError` is the parent's result, `peek` that of
   * mm_shared_qmi_peek_client for PDS, `handler` the id g_signal_connect
   * gives the subscription.
   */
  function EnableSpec(s: LocationState, source: set<LocationSource>, parentError: Option<string>,
                      peek: Result<PdsClient, string>, replies: PdsReplies, handler: HandlerId): Outcome
    requires HandledSource(source) || parentError.Some? || peek.Failure?
  {
    if parentError.Some? then Outcome(s, [], parentError)
    else if source * QmiSources == {} then Outcome(s, [], None)
    else if peek.Failure? then Outcome(s, [], Some(peek.error))
    else if source == {Agps} then AgpsSpec(s, source, replies, MsAssisted, true)
    else if s.enabledSources * GpsSources == {} then StartEngineSpec(s, source, peek.value, replies, handler)
    else Outcome(s.(enabledSources := s.enabledSources + source), [], None)
  }

  /** The engine stop chain: service state off, then unsubscribe and drop the client. */
  function StopEngineSpec(s: LocationState, source: set<LocationSource>, replies: PdsReplies): Outcome
  {
    var sent := [SetGpsServiceState(false)];
    var err := ReplyError(replies.gpsServiceState, GpsServiceStateFailed, true);
    if err.Some? then Outcome(s, sent, err)
    else Outcome(LocationState(s.enabledSources - source, None, 0), sent, None)
  }

  /** mm_shared_qmi_disable_location_gathering */
  function DisableSpec(s: LocationState, source: set<LocationSource>, replies: PdsReplies): Outcome
    requires HandledSource(source) || s.pdsClient.None?
  {
    if source * QmiSources == {} then Outcome(s, [], None)
    else if s.pdsClient.None? then Outcome(s, [], Some(MissingPdsClient))
    else if source == {Agps} then AgpsSpec(s, source, replies, Standalone, false)
    else if (s.enabledSources - source) * GpsSources == {} then StopEngineSpec(s, source, replies)
    else Outcome(s.(enabledSources := s.enabledSources - source), [], None)
  }

  /** The Private struct of mm-shared-qmi.c, restricted to its location fields. */
  class LocationPrivate {
    var enabledSources: set<LocationSource>
    var pdsClient: Option<PdsClient>
    var indicationId: nat

    function State(): LocationState
      reads this
    {
      LocationState(enabledSources, pdsClient, indicationId)
    }

    ghost predicate Valid()
      reads this
    {
      ValidState(State())
    }

    /** g_slice_new0: nothing enabled, no client, no subscription. */
    constructor()
      ensures State() == LocationState({}, None, 0)
      ensures Valid()
    {
      enabledSources := {};
      pdsClient := None;
      indicationId := 0;
    }

    /**
     * parent_enable_location_gathering_ready and the callbacks it chains
     * to (ser_location_ready, auto_tracking_state_start_ready,
     * gps_service_state_start_ready and the tracking-session pair).
     */
    method EnableLocationGathering(source: set<LocationSource>, parentError: Option<string>,
                                   peek: Result<PdsClient, string>, replies: PdsReplies, handler: HandlerId)
      returns (requests: seq<PdsRequest>, error: Option<string>)
      requires Valid()
      requires HandledSource(source) || parentError.Some? || peek.Failure?
      modifies this
      ensures Valid()
      ensures Outcome(State(), requests, error) == EnableSpec(old(State()), source, parentError, peek, replies, handler)
    {
      EnableKeepsInvariant(State(), source, parentError, peek, replies, handler);
      requests := [];
      if parentError.Some? {
        return requests, parentError;
      }
      if source * QmiSources == {} {
        return requests, None;
      }
      if peek.Failure? {
        return requests, Some(peek.error);
      }
      var client := peek.value;

      if source == {Agps} {
        requests := [GetDefaultTrackingSession];
        match replies.getSession
        case SessionTransportFailed(m) =>
          return requests, Some(QmiOperationFailed + m);
        case SessionReplied(Failure(e)) =>
          return requests, Some(GetSessionFailed + e.message);
        case SessionReplied(Success(info)) =>
          if info.operation == MsAssisted {
            enabledSources := enabledSources + source;
            return requests, None;
          }
          requests := requests + [SetDefaultTrackingSession(info.(operation := MsAssisted))];
          error := ReplyError(replies.setSession, SetSessionFailed, false);
          if error.Some? {
            return requests, error;
          }
          enabledSources := enabledSources + source;
          return requests, None;
      }

      if enabledSources * GpsSources == {} {
        requests := [SetGpsServiceState(true)];
        error := ReplyError(replies.gpsServiceState, GpsServiceStateFailed, true);
        if error.Some? {
          return requests, error;
        }
        requests := requests + [SetAutoTrackingState(true)];
        error := ReplyError(replies.autoTrackingState, AutoTrackingFailed, true);
        if error.Some? {
          return requests, error;
        }
        requests := requests + [SetEventReport(true)];
        error := ReplyError(replies.eventReport, EventReportFailed, false);
        if error.Some? {
          return requests, error;
        }
        assert pdsClient.None? && indicationId == 0;
        pdsClient := Some(client);
        indicationId := handler;
        enabledSources := enabledSources + source;
        return requests, None;
      }

      enabledSources := enabledSources + source;
      return requests, None;
    }

    /**
     * mm_shared_qmi_disable_location_gathering and the callbacks it chains
     * to (gps_service_state_stop_ready and the tracking-session pair).
     */
    method DisableLocationGathering(source: set<LocationSource>, replies: PdsReplies)
      returns (requests: seq<PdsRequest>, error: Option<string>)
      requires Valid()
      requires HandledSource(source) || pdsClient.None?
      modifies this
      ensures Valid()
      ensures Outcome(State(), requests, error) == DisableSpec(old(State()), source, replies)
    {
      DisableKeepsInvariant(State(), source, replies);
      requests := [];
      if source * QmiSources == {} {
        return requests, None;
      }
      if pdsClient.None? {
        return requests, Some(MissingPdsClient);
      }

      if source == {Agps} {
        requests := [GetDefaultTrackingSession];
        match replies.getSession
        case SessionTransportFailed(m) =>
          return requests, Some(QmiOperationFailed + m);
        case SessionReplied(Failure(e)) =>
          return requests, Some(GetSessionFailed + e.message);
        case SessionReplied(Success(info)) =>
          if info.operation == Standalone {
            enabledSources := enabledSources - source;
            return requests, None;
          }
          requests := requests + [SetDefaultTrackingSession(info.(operation := Standalone))];
          error := ReplyError(replies.setSession, SetSessionFailed, false);
          if error.Some? {
            return requests, error;
          }
          enabledSources := enabledSources - source;
          return requests, None;
      }

      var tmp := enabledSources - source;
      if tmp * GpsSources == {} {
        requests := [SetGpsServiceState(false)];
        error := ReplyError(replies.gpsServiceState, GpsServiceStateFailed, true);
        if error.Some? {
          return requests, error;
        }
        assert indicationId != 0 && pdsClient.Some?;
        indicationId := 0;
        pdsClient := None;
        enabledSources := enabledSources - source;
        return requests, None;
      }

      enabledSources := enabledSources - source;
      return requests, None;
    }
  }

  // ---------------------------------------------------------------------------
  // Properties of the chains

  /** Enabling keeps the client, the subscription and the NMEA/RAW sources in step. */
  lemma EnableKeepsInvariant(s: LocationState, source: set<LocationSource>, parentError: Option<string>,
                             peek: Result<PdsClient, string>, replies: PdsReplies, handler: HandlerId)
    requires ValidState(s)
    requires HandledSource(source) || parentError.Some? || peek.Failure?
    ensures ValidState(EnableSpec(s, source, parentError, peek, replies, handler).state)
  {
    if parentError.None? && source * QmiSources != {} && peek.Success? && source != {Agps} {
      assert source * GpsSources != {};
      if s.enabledSources * GpsSources != {} {
        assert (s.enabledSources + source) * GpsSources != {};
      }
    }
  }

  /** Disabling keeps the client, the subscription and the NMEA/RAW sources in step. */
  lemma DisableKeepsInvariant(s: LocationState, source: set<LocationSource>, replies: PdsReplies)
    requires ValidState(s)
    requires HandledSource(source) || s.pdsClient.None?
    ensures ValidState(DisableSpec(s, source, replies).state)
  {
    if source * QmiSources != {} && s.pdsClient.Some? && source == {Agps} {
      assert (s.enabledSources - {Agps}) * GpsSources == s.enabledSources * GpsSources;
    }
  }

  /** A chain that fails leaves the state as it was. */
  lemma FailureChangesNothing(s: LocationState, source: set<LocationSource>, parentError: Option<string>,
                              peek: Result<PdsClient, string>, replies: PdsReplies, handler: HandlerId)
    requires HandledSource(source)
    ensures EnableSpec(s, source, parentError, peek, replies, handler).error.Some? ==>
      EnableSpec(s, source, parentError, peek, replies, handler).state == s
    ensures DisableSpec(s, source, replies).error.Some? ==> DisableSpec(s, source, replies).state == s
  {
  }

  /** A source with none of NMEA, RAW, A-GPS completes with TRUE, sends nothing and changes nothing. */
  lemma OtherSourcesIgnored(s: LocationState, source: set<LocationSource>, peek: Result<PdsClient, string>,
                            replies: PdsReplies, handler: HandlerId)
    requires source * QmiSources == {}
    ensures EnableSpec(s, source, None, peek, replies, handler) == Outcome(s, [], None)
    ensures DisableSpec(s, source, replies) == Outcome(s, [], None)
  {
  }

  /** Whatever succeeds adds exactly the source on enable and removes exactly it on disable. */
  lemma SuccessChangesOnlySource(s: LocationState, source: set<LocationSource>, client: PdsClient,
                                 replies: PdsReplies, handler: HandlerId)
    requires HandledSource(source) && source * QmiSources != {}
    ensures var o := EnableSpec(s, source, None, Success(client), replies, handler);
      o.error.None? ==> o.state.enabledSources == s.enabledSources + source
    ensures var o := DisableSpec(s, source, replies);
      o.error.None? ==> o.state.enabledSources == s.enabledSources - source
  {
  }

  /**
   * The engine is started (service state on, auto-tracking on, event
   * report, in that order) exactly when no NMEA/RAW source was enabled;
   * otherwise the source is added with no request at all.
   */
  lemma EngineStartsOnlyWhenIdle(s: LocationState, source: set<LocationSource>, client: PdsClient,
                                 replies: PdsReplies, handler: HandlerId)
    requires source * GpsSources != {}
    ensures var o := EnableSpec(s, source, None, Success(client), replies, handler);
      && (s.enabledSources * GpsSources == {} <==> o.requests != [])
      && (o.requests != [] ==> o.requests[0] == SetGpsServiceState(true) && o.requests <= [SetGpsServiceState(true), SetAutoTrackingState(true), SetEventReport(true)])
      && (o.requests == [] ==> o == Outcome(s.(enabledSources := s.enabledSources + source), [], None))
      && (o.error.None? && o.requests != [] ==> o.state.pdsClient == Some(client) && o.state.indicationId == handler)
  {
    assert source != {Agps};
  }

  /**
   * On disable the engine is stopped and the subscription and client are
   * dropped exactly when removing the source leaves no NMEA/RAW source;
   * otherwise only the source bits go.
   */
  lemma EngineStopsOnlyWhenLast(s: LocationState, source: set<LocationSource>, replies: PdsReplies)
    requires ValidState(s) && s.pdsClient.Some?
    requires source * GpsSources != {}
    ensures var o := DisableSpec(s, source, replies);
      && ((s.enabledSources - source) * GpsSources == {} <==> o.requests == [SetGpsServiceState(false)])
      && (o.requests == [] ==> o == Outcome(s.(enabledSources := s.enabledSources - source), [], None))
      && (o.error.None? ==> (o.state.pdsClient.None? <==> (s.enabledSources - source) * GpsSources == {}))
  {
    assert source != {Agps};
  }

  /**
   * A-GPS on either side reads the tracking session first, writes it only
   * when it is not already in the wanted mode, copies the other fields into
   * the write, and on success changes only the A-GPS bit.
   */
  lemma AgpsSessionRules(s: LocationState, replies: PdsReplies, target: OperatingMode, enable: bool)
    ensures var o := AgpsSpec(s, {Agps}, replies, target, enable);
      && 1 <= |o.requests| <= 2
      && o.requests[0] == GetDefaultTrackingSession
      && (|o.requests| == 2 <==> replies.getSession.SessionReplied? && replies.getSession.result.Success?
                                   && replies.getSession.result.value.operation != target)
      && (|o.requests| == 2 ==> o.requests[1] == SetDefaultTrackingSession(replies.getSession.result.value.(operation := target)))
      && (o.error.None? ==> o.state == s.(enabledSources := if enable then s.enabledSources + {Agps} else s.enabledSources - {Agps}))
      && (o.error.Some? ==> o.state == s)
  {
  }

  /** Enabling A-GPS asks for MS-assisted mode, disabling it for standalone mode. */
  lemma AgpsTargets(s: LocationState, client: PdsClient, replies: PdsReplies, handler: HandlerId)
    ensures EnableSpec(s, {Agps}, None, Success(client), replies, handler) == AgpsSpec(s, {Agps}, replies, MsAssisted, true)
    ensures s.pdsClient.Some? ==> DisableSpec(s, {Agps}, replies) == AgpsSpec(s, {Agps}, replies, Standalone, false)
  {
    assert {Agps} * QmiSources != {} by { assert Agps in {Agps} * QmiSources; }
  }

  /** Disabling while the engine is idle fails, whatever the source, once it is one handled here. */
  lemma DisableWithoutClientFails(s: LocationState, source: set<LocationSource>, replies: PdsReplies)
    requires s.pdsClient.None? && source * QmiSources != {}
    ensures DisableSpec(s, source, replies) == Outcome(s, [], Some(MissingPdsClient))
  {
  }

  /** Replies that accept every request. */
  function AllOk(session: TrackingSession): PdsReplies {
    PdsReplies(Replied(None), Replied(None), Replied(None), SessionReplied(Success(session)), Replied(None))
  }

  /**
   * Enabling NMEA, then RAW, then disabling NMEA: the engine is started
   * once, RAW's enable sends nothing, and the engine keeps running for RAW
   * with the same client and subscription.
   */
  lemma NmeaThenRawScenario(s: LocationState, client: PdsClient, handler: HandlerId, session: TrackingSession)
    requires ValidState(s) && s.enabledSources * GpsSources == {}
    ensures var r := AllOk(session);
      var o1 := EnableSpec(s, {GpsNmea}, None, Success(client), r, handler);
      var o2 := EnableSpec(o1.state, {GpsRaw}, None, Success(client), r, handler);
      var o3 := DisableSpec(o2.state, {GpsNmea}, r);
      && o1.requests == [SetGpsServiceState(true), SetAutoTrackingState(true), SetEventReport(true)]
      && o2.requests == [] && o3.requests == []
      && o3.error.None?
      && o3.state == LocationState(s.enabledSources + {GpsRaw} - {GpsNmea}, Some(client), handler)
  {
    var r := AllOk(session);
    var o1 := EnableSpec(s, {GpsNmea}, None, Success(client), r, handler);
    assert o1.state.enabledSources * GpsSources != {} by {
      assert GpsNmea in o1.state.enabledSources * GpsSources;
    }
    var o2 := EnableSpec(o1.state, {GpsRaw}, None, Success(client), r, handler);
    assert GpsRaw in (o2.state.enabledSources - {GpsNmea}) * GpsSources;
  }

  /**
   * Enabling a GPS source from idle and disabling it again restores the
   * state, when the source was not enabled before.
   */
  lemma EnableThenDisableRestores(s: LocationState, source: LocationSource, client: PdsClient,
                                  handler: HandlerId, session: TrackingSession)
    requires ValidState(s) && s.enabledSources * GpsSources == {}
    requires source in GpsSources && source !in s.enabledSources
    ensures var r := AllOk(session);
      var o1 := EnableSpec(s, {source}, None, Success(client), r, handler);
      var o2 := DisableSpec(o1.state, {source}, r);
      o1.error.None? && o2.error.None? && o2.state == s && o2.requests == [SetGpsServiceState(false)]
  {
    var r := AllOk(session);
    var o1 := EnableSpec(s, {source}, None, Success(client), r, handler);
    assert {source} * GpsSources != {} by { assert source in {source} * GpsSources; }
    assert s.pdsClient.None? && s.indicationId == 0;
    assert o1.state.enabledSources - {source} == s.enabledSources;
    assert (o1.state.enabledSources - {source}) * GpsSources == {};
  }

  // ---------------------------------------------------------------------------
  // Capabilities

  /**
   * parent_load_capabilities_ready: the parent's sources, plus NMEA, RAW
   * and A-GPS when a PDS client can be peeked; a parent error is returned.
   */
  function LoadCapabilities(parent: Result<set<LocationSource>, string>, pdsAvailable: bool): (r: Result<set<LocationSource>, string>)
    ensures parent.Failure? ==> r == parent
    ensures parent.Success? ==> (r.Success? && parent.value <= r.value
      && r.value - parent.value <= QmiSources
      && (QmiSources <= r.value <==> pdsAvailable || QmiSources <= parent.value))
    ensures parent.Success? ==> r.Success? && r.value - parent.value == (if pdsAvailable then QmiSources - parent.value else {})
    ensures parent.Success? && !pdsAvailable ==> r == parent
  {
    match parent
    case Failure(e) => Failure(e)
    case Success(sources) => Success(if pdsAvailable then sources + QmiSources else sources)
  }

  // ---------------------------------------------------------------------------
  // SUPL server text

  /** An IPv4 address as the four bytes of a struct in_addr, in memory order. */
  datatype Ipv4 = Ipv4(a: nat, b: nat, c: nat, d: nat)

  predicate ValidIpv4(ip: Ipv4) {
    ip.a < 256 && ip.b < 256 && ip.c < 256 && ip.d < 256
  }

  /** The dotted-quad octet inet_pton accepts: one to three digits, no leading zero, at most 255. */
  predicate Octet(t: string) {
    Canonical(t) && |t| <= 3 && DigitsValue(t) < 256
  }

  /** inet_pton (AF_INET, ...): exactly four octets separated by dots. */
  function InetPton(text: string): (r: Option<Ipv4>)
    ensures r.Some? ==> ValidIpv4(r.value)
  {
    var parts := Split(text, '.');
    if |parts| == 4 && Octet(parts[0]) && Octet(parts[1]) && Octet(parts[2]) && Octet(parts[3])
    then Some(Ipv4(DigitsValue(parts[0]), DigitsValue(parts[1]), DigitsValue(parts[2]), DigitsValue(parts[3])))
    else None
  }

  /** inet_ntop (AF_INET, ...): the four bytes in decimal, joined by dots. */
  function InetNtop(ip: Ipv4): string {
    NatToString(ip.a) + "." + NatToString(ip.b) + "." + NatToString(ip.c) + "." + NatToString(ip.d)
  }

  /** mm_get_uint_from_str: a non-empty run of digits whose value fits a guint. */
  function UintFromStr(text: string): (r: Option<nat>)
    ensures r.Some? ==> r.value < 0x1_0000_0000
  {
    if text != [] && AllDigits(text) && DigitsValue(text) < 0x1_0000_0000 then Some(DigitsValue(text)) else None
  }

  /** parse_as_ip_port: "ip:port" with exactly one colon, a port 1..65535 and an IPv4 address. */
  function ParseAsIpPort(supl: string): (r: Option<(Ipv4, nat)>)
    ensures r.Some? ==> ValidIpv4(r.value.0) && 1 <= r.value.1 <= 65535
  {
    var split := Split(supl, ':');
    if |split| != 2 then None
    else
      match UintFromStr(split[1])
      case None => None
      case Some(port) =>
        if port == 0 || port > 65535 then None
        else
          match InetPton(split[0])
          case None => None
          case Some(ip) => Some((ip, port))
  }

  /** The text get_agps_config_ready builds from an address: "%s:%u". */
  function FormatIpPort(ip: Ipv4, port: nat): string {
    InetNtop(ip) + ":" + NatToString(port)
  }

  /** The reply to "get A-GPS config". */
  datatype AgpsConfigReply =
    | AgpsTransportFailed(message: string)
    | AgpsReplied(result: Result<AgpsConfig, string>)

  /** The optional location server address (ip, port) and URL (UTF-16BE bytes) of an A-GPS config. */
  datatype AgpsConfig = AgpsConfig(address: Option<(Ipv4, nat)>, url: Option<seq<bv8>>)

  /**
   * get_agps_config_ready: a failure is returned; an address with non-zero
   * ip and port gives "a.b.c.d:port"; otherwise a non-empty URL gives its
   * UTF-8 text (`fromUtf16` stands for g_convert, None when it fails);
   * otherwise "".
   */
  function LoadSuplServer(reply: AgpsConfigReply, fromUtf16: seq<bv8> -> Option<string>): (r: Result<string, string>)
    ensures r.Success? <==> reply.AgpsReplied? && reply.result.Success?
    ensures reply.AgpsTransportFailed? ==> r == Failure(QmiOperationFailed + reply.message)
    ensures reply.AgpsReplied? && reply.result.Failure? ==> r == Failure(reply.result.error)
    ensures (r.Success? && reply.result.value.address.Some? && reply.result.value.address.value.0 != Ipv4(0, 0, 0, 0)
      && reply.result.value.address.value.1 != 0) ==>
        r.value == FormatIpPort(reply.result.value.address.value.0, reply.result.value.address.value.1)
  {
    match reply
    case AgpsTransportFailed(m) => Failure(QmiOperationFailed + m)
    case AgpsReplied(Failure(e)) => Failure(e)
    case AgpsReplied(Success(config)) =>
      if config.address.Some? && config.address.value.0 != Ipv4(0, 0, 0, 0) && config.address.value.1 != 0 then
        Success(FormatIpPort(config.address.value.0, config.address.value.1))
      else if config.url.Some? && |config.url.value| > 0 then
        Success(fromUtf16(config.url.value).GetOr(""))
      else Success("")
  }

  /** QmiPdsNetworkMode, as far as the A-GPS requests set it. */
  datatype NetworkMode = Umts | Cdma

  /**
   * The network mode both A-GPS config requests carry: UMTS for a 3GPP
   * modem (multimode included), CDMA for a CDMA-only one, none otherwise.
   */
  function PreferredNetworkMode(is3gpp: bool, isCdma: bool): (m: Option<NetworkMode>)
    ensures m == Some(Umts) <==> is3gpp
    ensures m == Some(Cdma) <==> !is3gpp && isCdma
    ensures m.None? <==> !is3gpp && !isCdma
  {
    if is3gpp then Some(Umts) else if isCdma then Some(Cdma) else None
  }

  /** The server a SUPL setting is sent as. */
  datatype SuplServer = ServerAddress(ip: Ipv4, port: nat) | ServerUrl(utf16: seq<bv8>)

  /** The "set A-GPS config" request, sent on the PDS client. */
  datatype SetAgpsConfig = SetAgpsConfig(client: PdsClient, networkMode: Option<NetworkMode>, server: SuplServer)

  /**
   * mm_shared_qmi_location_set_supl_server: `client` is what
   * mm_shared_qmi_ensure_client gives, its error returned as it is.
   * With a client, the request holds the address and port when the text
   * parses as "ip:port", otherwise the text as a URL, converted by
   * `toUtf16` (g_convert to UTF-16BE).
   */
  function SetSuplServer(client: Result<PdsClient, string>, supl: string, is3gpp: bool, isCdma: bool,
                         toUtf16: string -> seq<bv8>): (r: Result<SetAgpsConfig, string>)
    ensures r.Failure? <==> client.Failure?
    ensures client.Failure? ==> r.error == client.error
    ensures r.Success? ==> r.value.client == client.value
    ensures r.Success? ==> r.value.networkMode == PreferredNetworkMode(is3gpp, isCdma)
    ensures r.Success? ==> (r.value.server.ServerAddress? <==> ParseAsIpPort(supl).Some?)
    ensures r.Success? && r.value.server.ServerAddress? ==>
      ParseAsIpPort(supl) == Some((r.value.server.ip, r.value.server.port))
    ensures r.Success? && r.value.server.ServerUrl? ==> r.value.server.utf16 == toUtf16(supl)
  {
    match client
    case Failure(e) => Failure(e)
    case Success(pds) =>
      var server := match ParseAsIpPort(supl)
        case Some((ip, port)) => ServerAddress(ip, port)
        case None => ServerUrl(toUtf16(supl));
      Success(SetAgpsConfig(pds, PreferredNetworkMode(is3gpp, isCdma), server))
  }

  /** The "get A-GPS config" request, sent on the PDS client. */
  datatype GetAgpsConfig = GetAgpsConfig(client: PdsClient, networkMode: Option<NetworkMode>)

  /**
   * mm_shared_qmi_location_load_supl_server: without a PDS client its
   * error is returned; with one the request carries the preferred network
   * mode. The reply is read by LoadSuplServer.
   */
  function LoadSuplServerRequest(client: Result<PdsClient, string>, is3gpp: bool, isCdma: bool): (r: Result<GetAgpsConfig, string>)
    ensures r.Failure? <==> client.Failure?
    ensures client.Failure? ==> r.error == client.error
    ensures r.Success? ==> r.value == GetAgpsConfig(client.value, PreferredNetworkMode(is3gpp, isCdma))
  {
    match client
    case Failure(e) => Failure(e)
    case Success(pds) => Success(GetAgpsConfig(pds, PreferredNetworkMode(is3gpp, isCdma)))
  }

  /** Setting and loading the SUPL server talk to the modem in the same network mode, on the same client. */
  lemma SuplRequestsAgree(client: Result<PdsClient, string>, supl: string, is3gpp: bool, isCdma: bool,
                          toUtf16: string -> seq<bv8>)
    ensures var put := SetSuplServer(client, supl, is3gpp, isCdma, toUtf16);
      var get := LoadSuplServerRequest(client, is3gpp, isCdma);
      put.Success? == get.Success?
      && (put.Success? ==> put.value.client == get.value.client && put.value.networkMode == get.value.networkMode)
  {
  }

  /** set_agps_config_ready: no output is "QMI operation failed: "; a protocol error is returned as it is. */
  function SetSuplServerDone(reply: QmiReply): (r: Option<string>)
    ensures r.None? <==> reply.Replied? && reply.error.None?
    ensures reply.TransportFailed? ==> r == Some(QmiOperationFailed + reply.message)
    ensures reply.Replied? && reply.error.Some? ==> r == Some(reply.error.value.message)
  {
    match reply
    case TransportFailed(m) => Some(QmiOperationFailed + m)
    case Replied(None) => None
    case Replied(Some(e)) => Some(e.message)
  }

  /**
   * Setting "ip:port" written the way inet_ntop and "%u" write it, and
   * loading the stored address back, gives the same text; the unspecified
   * address 0.0.0.0 reads back as "".
   */
  lemma SetThenLoadSupl(client: PdsClient, supl: string, is3gpp: bool, isCdma: bool,
                        toUtf16: string -> seq<bv8>, fromUtf16: seq<bv8> -> Option<string>)
    requires ParseAsIpPort(supl).Some? && Canonical(Split(supl, ':')[1])
    ensures var sent := SetSuplServer(Success(client), supl, is3gpp, isCdma, toUtf16).value.server;
      var loaded := LoadSuplServer(AgpsReplied(Success(AgpsConfig(Some((sent.ip, sent.port)), None))), fromUtf16);
      loaded == if sent.ip == Ipv4(0, 0, 0, 0) then Success("") else Success(supl)
  {
    var split := Split(supl, ':');
    var (ip, port) := ParseAsIpPort(supl).value;
    IpTextCanonical(supl);
    DigitsValueUnique(split[1], port);
    FieldsJoin(supl, ':');
    assert Join(split, ':') == split[0] + [':'] + split[1] by {
      assert split[1..] == [split[1]];
    }
  }

  /**
   * What the load side writes, the set side reads back: the text built from
   * any address and port 1..65535 parses to the same address and port.
   */
  lemma IpPortRoundTrip(ip: Ipv4, port: nat)
    requires ValidIpv4(ip) && 1 <= port <= 65535
    ensures ParseAsIpPort(FormatIpPort(ip, port)) == Some((ip, port))
  {
    var text := InetNtop(ip);
    var p := NatToString(port);
    assert ':' !in text by { InetNtopPlain(ip); }
    assert ':' !in p by { DigitsHaveNoSeparator(p, ':'); }
    FieldsAppend(text, ':', p);
    FieldsOfPlain(p, ':');
    NatToStringValue(port);
    InetPtonOfNtop(ip);
  }

  lemma DigitsHaveNoSeparator(t: string, sep: char)
    requires AllDigits(t) && !IsDigit(sep)
    ensures sep !in t
  {
  }

  /** The text inet_ntop writes holds only digits and dots. */
  lemma InetNtopPlain(ip: Ipv4)
    ensures ':' !in InetNtop(ip)
  {
    var a, b, c, d := NatToString(ip.a), NatToString(ip.b), NatToString(ip.c), NatToString(ip.d);
    DigitsHaveNoSeparator(a, ':');
    DigitsHaveNoSeparator(b, ':');
    DigitsHaveNoSeparator(c, ':');
    DigitsHaveNoSeparator(d, ':');
    assert InetNtop(ip) == a + "." + b + "." + c + "." + d;
  }

  /** A byte's decimal text is an octet inet_pton accepts, worth that byte. */
  lemma OctetOfByte(v: nat)
    requires v < 256
    ensures Octet(NatToString(v)) && DigitsValue(NatToString(v)) == v
  {
    NatToStringCanonical(v);
    NatToStringValue(v);
    if v >= 10 {
      assert NatToString(v) == NatToString(v / 10) + [DigitChar(v % 10)];
      if v >= 100 {
        assert NatToString(v / 10) == NatToString(v / 100) + [DigitChar(v / 10 % 10)];
      }
    }
  }

  /** inet_pton reads back what inet_ntop writes. */
  lemma InetPtonOfNtop(ip: Ipv4)
    requires ValidIpv4(ip)
    ensures InetPton(InetNtop(ip)) == Some(ip)
  {
    var a, b, c, d := NatToString(ip.a), NatToString(ip.b), NatToString(ip.c), NatToString(ip.d);
    OctetOfByte(ip.a);
    OctetOfByte(ip.b);
    OctetOfByte(ip.c);
    OctetOfByte(ip.d);
    DigitsHaveNoSeparator(a, '.');
    DigitsHaveNoSeparator(b, '.');
    DigitsHaveNoSeparator(c, '.');
    DigitsHaveNoSeparator(d, '.');
    var parts := [a, b, c, d];
    JoinFour(parts, '.');
    assert NoneContains(parts, '.');
    FieldsOfJoin(parts, '.');
  }

  /**
   * inet_pton accepts only the text inet_ntop writes: an address that
   * parses has exactly that text before the colon.
   */
  lemma IpTextCanonical(supl: string)
    requires ParseAsIpPort(supl).Some?
    ensures var split := Split(supl, ':');
      InetNtop(ParseAsIpPort(supl).value.0) == split[0]
  {
    var split := Split(supl, ':');
    var parts := Split(split[0], '.');
    var ip := ParseAsIpPort(supl).value.0;
    DigitsValueUnique(parts[0], ip.a);
    DigitsValueUnique(parts[1], ip.b);
    DigitsValueUnique(parts[2], ip.c);
    DigitsValueUnique(parts[3], ip.d);
    FieldsJoin(split[0], '.');
    JoinFour(parts, '.');
  }
}
