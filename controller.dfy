/** The MQTT LED-control client: the state the callbacks and the main loop
    share (`mqtt_state` and the loop's tracking variables), the LED, and the
    calls the client makes into the MQTT transport. */
module Controller {
  import opened Wrappers
  import opened Ascii
  import opened Command
  import opened Decimal
  import opened Reporting

  const ControlTopic := "pico/led"
  const InputStatusTopic := "pico/input_status"
  const LedStatusTopic := "pico/led_status"
  const NoticeTopic := "pico/status"

  /** `MQTT_CONNECT_ACCEPTED` in lwIP's `mqtt_connection_status_t`. */
  const ConnectAccepted := 0

  /** A call the client makes into the MQTT transport. */
  datatype TransportCall =
    | SetInpubCallback
    | Subscribe(topic: string, qos: nat)
    | Publish(topic: string, message: string, qos: nat, retain: bool)

  /** The calls `mqtt_publish_message` makes: one publish at QoS 0 without
      retain when a client exists and the transport reports it connected,
      none otherwise. */
  function PublishCalls(hasClient: bool, transportUp: bool, topic: string, message: string)
    : (r: seq<TransportCall>)
    ensures |r| <= 1
    ensures r != [] <==> hasClient && transportUp
    ensures forall c :: c in r ==> c == Publish(topic, message, 0, false)
  {
    if hasClient && transportUp then [Publish(topic, message, 0, false)] else []
  }

  /** The acknowledgement text for a recognised command. */
  function AckText(cmd: Command): (s: string)
    requires cmd != Ignore
    ensures cmd == TurnOn ==> s == "on"
    ensures cmd == TurnOff ==> s == "off"
  {
    if cmd == TurnOn then "on" else "off"
  }

  /** The value `read_monitor_pin` returns for a GPIO level. */
  function PinValue(high: bool): (v: int)
    ensures v == 0 || v == 1
    ensures high <==> v == 1
  {
    if high then 1 else 0
  }

  class MqttController {
    /** Whether `mqtt_state.mqtt_client` is non-null. */
    const hasClient: bool
    /** `mqtt_state.connected`. */
    var connected: bool
    /** The level last written to the LED pin. */
    var ledOn: bool
    /** `last_pin_status` and `last_publish` of the main loop. */
    var lastPinStatus: int
    var lastPublish: u32
    /** Every call made into the MQTT transport, oldest first. */
    var transport: seq<TransportCall>
    /** Every pass of the main loop so far, oldest first. */
    ghost var passes: seq<Pass>
    /** Every report the main loop has made, oldest first. */
    ghost var reports: seq<Report>

    /** The reports are exactly those the scheduler makes over the passes so
        far, the tracking variables summarise them, and every report was due
        when it was made. */
    ghost predicate Valid()
      reads this
    {
      reports == Schedule(Initial, passes) &&
      Tracker(lastPinStatus, lastPublish) == After(Initial, reports) &&
      Spaced(Initial, reports)
    }

    /** The state at the top of the main loop: `mqtt_state` zeroed apart from
        the client the setup created (or failed to create), the LED written
        low, and the loop variables at their initial values. */
    constructor (hasClient: bool)
      ensures Valid()
      ensures this.hasClient == hasClient
      ensures !connected && !ledOn && transport == [] && passes == [] && reports == []
      ensures lastPinStatus == -1 && lastPublish == 0
    {
      this.hasClient := hasClient;
      connected := false;
      ledOn := false;
      lastPinStatus := -1;
      lastPublish := 0;
      transport := [];
      passes := [];
      reports := [];
    }

    /** `mqtt_publish_message`: gated on the client and on the transport's
        own connection state (not on `connected`); a failed publish is only
        logged, so the outcome has no further effect. */
    method PublishMessage(topic: string, message: string, transportUp: bool)
      modifies this`transport
      ensures old(Valid()) ==> Valid()
      ensures transport == old(transport) + PublishCalls(hasClient, transportUp, topic, message)
    {
      if !hasClient || !transportUp {
        return;
      }
      transport := transport + [Publish(topic, message, 0, false)];
    }

    /** `mqtt_incoming_data_cb`: a null or empty payload is dropped; a
        recognised command drives the LED and is acknowledged every time,
        whether or not the LED changes; anything else is ignored. */
    method OnIncomingData(payload: Option<seq<byte>>, transportUp: bool)
      modifies this`ledOn, this`transport
      ensures old(Valid()) ==> Valid()
      ensures payload.None? || payload.value == [] ==>
        ledOn == old(ledOn) && transport == old(transport)
      ensures payload.Some? && payload.value != [] ==>
        var cmd := Decode(payload.value);
        (cmd == TurnOn ==>
          ledOn && transport == old(transport) + PublishCalls(hasClient, transportUp, LedStatusTopic, "on")) &&
        (cmd == TurnOff ==>
          !ledOn && transport == old(transport) + PublishCalls(hasClient, transportUp, LedStatusTopic, "off")) &&
        (cmd == Ignore ==> ledOn == old(ledOn) && transport == old(transport))
    {
      if payload.None? || |payload.value| == 0 {
        return;
      }
      var cmd := Decode(payload.value);
      if cmd == TurnOn {
        ledOn := true;
        PublishMessage(LedStatusTopic, AckText(cmd), transportUp);
      } else if cmd == TurnOff {
        ledOn := false;
        PublishMessage(LedStatusTopic, AckText(cmd), transportUp);
      }
    }

    /** `mqtt_connection_cb`: only an accepted session sets `connected`, and
        then registers the inbound handlers, subscribes to the control topic
        at QoS 0 and announces itself, in that order; every other status,
        known or not, clears `connected` and does nothing else. lwIP calls
        this only for a client that exists. */
    method OnConnection(status: int, transportUp: bool)
      requires hasClient
      modifies this`connected, this`transport
      ensures old(Valid()) ==> Valid()
      ensures connected <==> status == ConnectAccepted
      ensures status == ConnectAccepted ==>
        transport == old(transport) + [SetInpubCallback, Subscribe(ControlTopic, 0)]
          + PublishCalls(hasClient, transportUp, NoticeTopic, "connected")
      ensures status != ConnectAccepted ==> transport == old(transport)
    {
      if status == ConnectAccepted {
        connected := true;
        transport := transport + [SetInpubCallback];
        transport := transport + [Subscribe(ControlTopic, 0)];
        PublishMessage(NoticeTopic, "connected", transportUp);
      } else {
        connected := false;
      }
    }

    /** One pass of the main loop after the network poll: with the client
        present, `connected` set and the transport connected, read the pin
        and report it when it changed or ReportIntervalMs elapsed; a report
        updates both tracking variables whatever the publish's outcome. */
    method Tick(now: u32, pinHigh: bool, transportUp: bool)
      requires Valid()
      modifies this`lastPinStatus, this`lastPublish, this`transport, this`passes, this`reports
      ensures Valid()
      ensures passes == old(passes) + [Pass(hasClient && connected && transportUp, now, PinValue(pinHigh))]
      ensures
        var pin := PinValue(pinHigh);
        var reported := hasClient && connected && transportUp
          && Due(old(Tracker(lastPinStatus, lastPublish)), pin, now);
        (reported ==>
          reports == old(reports) + [Report(now, pin)] &&
          lastPinStatus == pin && lastPublish == now &&
          transport == old(transport) + [Publish(InputStatusTopic, FormatInt(pin), 0, false)]) &&
        (!reported ==>
          reports == old(reports) && lastPinStatus == old(lastPinStatus) &&
          lastPublish == old(lastPublish) && transport == old(transport))
    {
      var pass := Pass(hasClient && connected && transportUp, now, PinValue(pinHigh));
      ScheduleSnoc(Initial, passes, pass);
      ScheduleSpaced(Initial, passes + [pass]);
      passes := passes + [pass];
      if hasClient && connected && transportUp {
        var pin := PinValue(pinHigh);
        if pin != lastPinStatus || Elapsed(now, lastPublish) >= ReportIntervalMs {
          var msg := FormatInt(pin);
          PublishMessage(InputStatusTopic, msg, transportUp);
          lastPinStatus := pin;
          lastPublish := now;
          reports := reports + [Report(now, pin)];
        }
      }
    }
  }
}
