# MQTT LED-control client: a Dafny model

This project models the controller logic of `led_control_webserver.c`. That file is a
Raspberry Pi Pico W firmware that talks to an MQTT broker. It does three things:

- It subscribes to `pico/led`. A payload of `on` or `1`, in any case, drives the LED high. A
  payload of `off` or `0` drives it low. Either one is acknowledged on `pico/led_status`.
- It tracks the MQTT session in `mqtt_state.connected`. When the session is accepted, it
  registers its inbound callbacks, subscribes to the control topic and publishes `connected`
  on `pico/status`.
- Every pass of its main loop it publishes the monitored pin's value (`0` or `1`) on
  `pico/input_status`. It does so only when the value changed, or when 10000 ms have elapsed on
  the wrapping 32-bit millisecond clock.

The modules follow those parts:

- `Ascii` (`ascii.dfy`) holds bytes, C `tolower`, C strings and `strcasecmp`. The comparison
  loop is proved equal to a reference meaning: the texts before the first NUL are equal
  ignoring ASCII case.
- `Command` (`command.dfy`) is the payload decoder of the inbound-data callback.
- `Decimal` (`decimal.dfy`) is `snprintf("%d")` of the pin value, with its inverse.
- `Reporting` (`reporting.dfy`) holds `uint32_t` elapsed time, the report condition and the
  tracking variables. It also has `Schedule`, a reference for what a run of loop passes reports.
- `Controller` (`controller.dfy`) holds the class `MqttController`. Its fields are the global
  `mqtt_state`, the LED level and the loop's `last_pin_status`/`last_publish`. It records the
  transport calls the client makes as a log. Its methods are the callbacks and one loop pass.
  Its invariant `Valid()` says three things. The report history is exactly what `Schedule`
  reports over the loop passes made so far. The tracking variables equal the last report in
  that history. Every report in it was due when it was made.
- `Wrappers` (`wrappers.dfy`) holds `Option`, which models a pointer that may be null.

The MQTT library is abstract in this model:

- Whether a client was created is the constant `hasClient`.
- `mqtt_client_is_connected` is the parameter `transportUp`.
- `mqtt_set_inpub_callback`, `mqtt_subscribe` and `mqtt_publish` become entries appended to
  the `transport` log.
- The monitored GPIO level (`pinHigh`) and the clock (`now`) are parameters of the loop pass.

Three details of the code that the model keeps:

- An acknowledgement is published on every recognised command, even when the LED already has
  the commanded level (lines 79-85).
- `mqtt_publish_message` checks the client and the library's connection state. It does not
  check the `connected` flag (line 52).
- "No report yet" is the sentinel `last_pin_status = -1` (line 247).

## Model

| member | source | states |
|---|---|---|
| `Ascii.CString` | led_control_webserver.c:72-74 | the copied message, read as a C string, is the prefix of the buffer before its first NUL; it holds no NUL |
| `Ascii.Lower` | led_control_webserver.c:79 | case folding maps exactly 'A'..'Z' to lower case and maps only NUL to NUL |
| `Ascii.StrCaseEqual` | led_control_webserver.c:79-82 | the `strcasecmp` walk gives "equal" iff the texts before the first NUL have equal length and agree position by position ignoring ASCII case |
| `Ascii.CStringOfPrefix` | led_control_webserver.c:72-74 | bytes after a terminator never become part of the C string |
| `Command.Text` | led_control_webserver.c:72-74 | the compared text is a NUL-free prefix of the payload that ends at the payload's first NUL, and is the whole payload when it holds no NUL |
| `Command.Decode` | led_control_webserver.c:79-85 | a payload means "LED on" iff its text equals `on` or `1` ignoring case, and "LED off" iff it equals `off` or `0` ignoring case; otherwise it is ignored |
| `Command.AnyCaseOfOn` | led_control_webserver.c:79 | `on`, `ON`, `On`, `oN` all turn the LED on |
| `Command.AnyCaseOfOff` | led_control_webserver.c:82 | every case variant of `off` turns the LED off |
| `Command.LongPayloadIgnored` | led_control_webserver.c:79-85 | no prefix matching or trimming: a NUL-free payload longer than three bytes is never a command |
| `Command.NearMissesIgnored` | led_control_webserver.c:79-85 | `onx` and ` on` are ignored |
| `Command.StopsAtNul` | led_control_webserver.c:72-79 | a payload is decoded as its bytes before the first NUL: `on` followed by NUL and anything is `on` |
| `Decimal.FormatNat` | led_control_webserver.c:266-267 | the digits of a natural number are non-empty, decimal, without leading zero, and denote the number |
| `Decimal.FormatInt` | led_control_webserver.c:267 | `%d` text is non-empty and starts with '-' exactly for negative values |
| `Decimal.FormatIntRoundTrip` | led_control_webserver.c:267 | reading the published text back gives the value that was formatted |
| `Decimal.FormatPinValues` | led_control_webserver.c:262-267 | the two pin values are published as `0` and `1` |
| `Decimal.FormatFitsBuffer` | led_control_webserver.c:266-267 | the text of any 32-bit int plus its NUL fits the 16-byte buffer, so `snprintf` never truncates |
| `Decimal.NatDigitsBound` | led_control_webserver.c:266-267 | a number below 10^k has at most max(k, 1) digits |
| `Reporting.Elapsed` | led_control_webserver.c:256-265 | `now - last_publish` in `uint32_t` is the amount that takes `last_publish` to `now` modulo 2^32 |
| `Reporting.ElapsedIsUnique` | led_control_webserver.c:265 | no other 32-bit amount does so |
| `Reporting.ElapsedAcrossWrap` | led_control_webserver.c:265 | after the clock wraps, the elapsed time is measured across the wrap (2^32 minus the gap), never negative |
| `Reporting.Due` | led_control_webserver.c:265 | a report is not due exactly when the value is unchanged and `now` lies in the 10000 ms window starting at the last report, a window that may straddle the wrap of the 32-bit clock |
| `Reporting.DueKeepsSpaced` | led_control_webserver.c:265-273 | making a report only when it is due keeps every report in the history due, and leaves the tracking variables at that report |
| `Reporting.SameValueReportsApart` | led_control_webserver.c:265-272 | two consecutive reports of the same value are at least 10000 ms apart on the 32-bit clock |
| `Reporting.FirstReadIsDue` | led_control_webserver.c:246-265 | from the initial tracking values, any pin read (0 or 1) is due, so the first gated pass reports |
| `Reporting.Schedule` | led_control_webserver.c:252-277 | a run of loop passes makes no more reports than there are passes, and every report carries the clock and pin value of a pass whose gate was open |
| `Reporting.ScheduleSnoc` | led_control_webserver.c:256-273 | one more pass appends exactly what that pass reports from the tracking variables the earlier passes left |
| `Reporting.ScheduleSpaced` | led_control_webserver.c:252-277 | over any run of loop passes, every report made was due: the value changed or 10000 ms had elapsed since the previous report |
| `Reporting.ChangeReportedAtOnce` | led_control_webserver.c:259-273 | the first pass with the gate open that sees a changed value reports it, even when earlier open passes reported the old value on the interval and whatever closed passes read; the run then continues from that report |
| `Reporting.QuietWhileUnchanged` | led_control_webserver.c:265 | while every open-gate pass sees the unchanged value less than 10000 ms after the last report, nothing is reported, whatever closed passes read |
| `Controller.PublishCalls` | led_control_webserver.c:51-62 | a publish is one QoS-0, non-retained write when a client exists and the library reports it connected, and no write otherwise |
| `Controller.AckText` | led_control_webserver.c:79-85 | the acknowledgement is `on` for an on command and `off` for an off command |
| `Controller.PinValue` | led_control_webserver.c:40-42 | a pin read is 0 or 1, and 1 exactly for a high level |
| `Controller.MqttController.constructor` | led_control_webserver.c:246-247 | the state entering the loop: not connected, LED low, no transport calls, `last_pin_status = -1`, `last_publish = 0` |
| `Controller.MqttController.PublishMessage` | led_control_webserver.c:51-62 | appends exactly the gated publish to the transport log and changes nothing else; its outcome is never retried |
| `Controller.MqttController.OnIncomingData` | led_control_webserver.c:66-86 | null or empty payload: nothing changes; `on`/`1`: LED on and `on` acknowledged; `off`/`0`: LED off and `off` acknowledged, even if the LED already had that level; anything else: nothing changes |
| `Controller.MqttController.OnConnection` | led_control_webserver.c:103-143 | `connected` iff the status is accepted; on accept the inbound callbacks are registered, then `pico/led` is subscribed at QoS 0, then `connected` is published on `pico/status`; any other status makes no transport call |
| `Controller.MqttController.Tick` | led_control_webserver.c:256-273 | with client, flag and transport all connected, a due value is published as its decimal text and both tracking variables move to it; otherwise nothing changes; the pass is recorded, and the report history stays equal to `Schedule` over all passes so far and spaced |

## Left out

- Wi-Fi bring-up and its 30000 ms association timeout (lines 196-210): hardware and network I/O.
- GPIO initialisation and the raw `gpio_get`/`gpio_put` calls (lines 40-48, 220-226). The pin
  level is a parameter, and the LED is the field `ledOn`.
- DNS resolution, client creation and `mqtt_client_connect` (lines 147-190, 230-243). These are
  asynchronous calls into lwIP. Their outcome is the constant `hasClient`.
- The lwIP MQTT engine itself. `mqtt_publish`, `mqtt_subscribe` and `mqtt_set_inpub_callback`
  are log entries, and `mqtt_client_is_connected` is a parameter.
- The error codes returned by `mqtt_publish` and `mqtt_subscribe`. The source only prints them,
  so they cannot change any state in the model.
- `mqtt_incoming_publish_cb` and `mqtt_sub_request_cb` (lines 89-100), which only print.
- `cyw43_arch_poll`, `sleep_ms(100)`, reading the clock, and every `printf`. The clock value is a
  parameter of `Tick`. Callbacks that the poll delivers are calls of the methods above.
- Fragmented payloads: the `flags` argument of the inbound-data callback is ignored, as in the source.
  So a payload that lwIP delivers in several fragments is decoded fragment by fragment. The
  model treats each call as one whole payload.
- The cleanup after the `while (1)` loop (lines 280-284), which is unreachable.
