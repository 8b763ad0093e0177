/**
 * The Zigbee application signal handler (esp_zb_app_signal_handler in
 * main/main.c). It keeps no state: each signal, with its status and the
 * stack's factory-new flag, maps to the commissioning requests it makes, as in
 * the top-level commissioning and network-steering procedures of chapter 8 of
 * the Zigbee Base Device Behavior specification.
 */
module SignalHandler {
  import opened EspErr

  /** The signal types the handler distinguishes; every other code falls to the default branch. */
  datatype SignalType =
    | SkipStartup
    | DeviceFirstStart
    | DeviceReboot
    | Steering
    | OtherSignal(code: nat)

  /** A signal as delivered: its type, its status and what esp_zb_bdb_is_factory_new() answers while it is handled. */
  datatype Signal = Signal(sigType: SignalType, status: int, factoryNew: bool)

  /** Base Device Behavior commissioning modes the handler requests. */
  datatype BdbMode = Initialization | NetworkSteering

  /** Requests made to the Zigbee stack. */
  datatype Effect =
    | StartTopLevelCommissioning(mode: BdbMode)
    | SchedulerAlarm(callbackMode: BdbMode, delayMs: nat)

  /** Delay before a failed network steering is retried, in milliseconds. */
  const SteeringRetryDelayMs: nat := 1000

  /** esp_zb_app_signal_handler: the requests one signal causes, in order. */
  function HandleSignal(s: Signal): (effects: seq<Effect>)
    ensures |effects| <= 1
    ensures StartTopLevelCommissioning(Initialization) in effects <==> s.sigType == SkipStartup
    ensures StartTopLevelCommissioning(NetworkSteering) in effects <==>
      (s.sigType == DeviceFirstStart || s.sigType == DeviceReboot) && s.status == EspOk && s.factoryNew
    ensures SchedulerAlarm(NetworkSteering, SteeringRetryDelayMs) in effects <==>
      s.sigType == Steering && s.status != EspOk
    ensures forall e :: e in effects && e.SchedulerAlarm? ==> e == SchedulerAlarm(NetworkSteering, SteeringRetryDelayMs)
  {
    match s.sigType
    case SkipStartup => [StartTopLevelCommissioning(Initialization)]
    case DeviceFirstStart | DeviceReboot =>
      if s.status == EspOk && s.factoryNew then [StartTopLevelCommissioning(NetworkSteering)] else []
    case Steering =>
      if s.status == EspOk then [] else [SchedulerAlarm(NetworkSteering, SteeringRetryDelayMs)]
    case OtherSignal(_) => []
  }

  /** bdb_start_top_level_commissioning_cb: what a scheduler alarm does when it fires. */
  function AlarmFires(alarm: Effect): (e: Effect)
    requires alarm.SchedulerAlarm?
    ensures e.StartTopLevelCommissioning? && e.mode == alarm.callbackMode
  {
    StartTopLevelCommissioning(alarm.callbackMode)
  }

  /** A failed steering, once its alarm fires, starts network steering again. */
  lemma SteeringFailureRetriesSteering(s: Signal)
    requires s.sigType == Steering && s.status != EspOk
    ensures |HandleSignal(s)| == 1 && HandleSignal(s)[0].SchedulerAlarm?
    ensures AlarmFires(HandleSignal(s)[0]) == StartTopLevelCommissioning(NetworkSteering)
  {
  }

  /** A successful steering, a failed or non-factory-new start and any unrecognised signal request nothing. */
  lemma QuietSignals(s: Signal)
    requires
      (s.sigType == Steering && s.status == EspOk) ||
      ((s.sigType == DeviceFirstStart || s.sigType == DeviceReboot) && (s.status != EspOk || !s.factoryNew)) ||
      s.sigType.OtherSignal?
    ensures HandleSignal(s) == []
  {
  }

  /** The factory-new flag matters only to a successful first start or reboot. */
  lemma FactoryNewOnlyAffectsStart(t: SignalType, status: int)
    requires !((t == DeviceFirstStart || t == DeviceReboot) && status == EspOk)
    ensures HandleSignal(Signal(t, status, true)) == HandleSignal(Signal(t, status, false))
  {
  }

  /** The requests a whole run of signals causes, in order. */
  function HandleAll(trace: seq<Signal>): (effects: seq<Effect>) {
    if trace == [] then [] else HandleSignal(trace[0]) + HandleAll(trace[1..])
  }

  function AlarmCount(effects: seq<Effect>): (n: nat) {
    if effects == [] then 0 else (if effects[0].SchedulerAlarm? then 1 else 0) + AlarmCount(effects[1..])
  }

  function SteeringFailures(trace: seq<Signal>): (n: nat) {
    if trace == [] then 0
    else (if trace[0].sigType == Steering && trace[0].status != EspOk then 1 else 0) + SteeringFailures(trace[1..])
  }

  lemma {:induction false} AlarmCountAppend(a: seq<Effect>, b: seq<Effect>)
    ensures AlarmCount(a + b) == AlarmCount(a) + AlarmCount(b)
  {
    if a != [] {
      AlarmCountAppend(a[1..], b);
      assert (a + b)[1..] == a[1..] + b;
    } else {
      assert a + b == b;
    }
  }

  /**
   * No retry storm and no lost retry: over any run of signals the handler
   * schedules exactly one retry per failed steering, and every retry it
   * schedules is network steering after 1000 ms.
   */
  lemma {:induction false} OneRetryPerSteeringFailure(trace: seq<Signal>)
    ensures AlarmCount(HandleAll(trace)) == SteeringFailures(trace)
    ensures forall e :: e in HandleAll(trace) && e.SchedulerAlarm? ==>
      e == SchedulerAlarm(NetworkSteering, SteeringRetryDelayMs)
  {
    if trace != [] {
      var h := HandleSignal(trace[0]);
      OneRetryPerSteeringFailure(trace[1..]);
      AlarmCountAppend(h, HandleAll(trace[1..]));
      if h != [] { assert h[1..] == []; }
    }
  }
}
