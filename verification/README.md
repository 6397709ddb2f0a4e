# Verification of the off-grid energy and telemetry station

A Dafny model of the station's firmware and cloud application, and proofs of what every run of them keeps.
Three subsystems are modelled.

**The closed energy loop.** The battery firmware keeps a clamped charge and a 95 % / 75 % charge lock
(`Battery`). The cloud's balance loop reads a state of charge printed with one decimal, runs the 20 % / 40 %
diesel hysteresis and sends one rate-limited delta rounded to five decimals per 5 s cycle (`EnergyState`). The
diesel node warms up for 40 s (`DeviceStatus`). `Station` puts these together as one step system, interleaved
at every `await`, with arbitrary loads, telemetry delivered late or never, registrations coming and going, and
each request completed, answered with an error, lost, or completed with its reply lost. The numbers go through
their texts: the charge as printf writes it and the JSON reader reads it, the delta as Python formats it and
`atof` reads it.

**Adaptive sampling.** The per-node minimum-gap baseline and five-sample window (`Delay`), the congestion
controller with the sensors it commands (`Controller`), the sensor's interval resource with `strtoul`
(`Sampling`), and the publishing process that must pick a new interval up (`Publisher`). `SamplingLoop` puts
these together as one step system, from packets to publish timers.

**The border router's IPv6 printer.** The three-phase zero-run loop (`Ipv6`), against a parser for section 2.2
of RFC 4291, and the 256-byte line buffer it writes into (`WebServer`).

Code that updates state in place is a class whose methods are proved equal to a step function on values; the
theorems are about all runs of those step functions (`BatteryRuns`, `Station`, `StationFaults`,
`StationHistory`, `StationLimits`, `WarmUp`, `PowerHistory`, `ControllerRuns`, `SamplingLoop`, and the second
halves of `Registry`, `Delay` and `Publisher`). `StationScenarios` builds the runs that show limits to be exact.
`Text`, `CutText`, `Dict`, `Common` and `Hysteresis` are shared: number texts and what is left of them in a buffer
too small, insertion-ordered dictionaries, request outcomes, and one theorem on two-threshold switches that is used
for the charge lock, the diesel dispatch and the diesel node.

In the deployed battery node the override resource is never activated
(sensors/coap-mqtt-battery-sensor/coap-mqtt-battery-sensor.c:111), so `Station` has no override command;
`Battery` and `BatteryRuns` model it, and `BatteryRuns.EnergyPaysForLockSwitching` holds with it.

## Main results

- Once dispatched, the diesel stays dispatched for at least 756 cycles and 63 minutes; once released, it rests
  for at least 504 cycles and 42 minutes (`Station.DieselRunsAndRestsLong`). Nothing is assumed about load,
  producers, registrations or losses.
- The charge lock obeys both thresholds in every reachable state and the charge stays below 9.5 + 0.00278 kWh
  (`Station.OverchargeBound`).
- In every run, a dispatched diesel finds less than 4.05 kWh plus 0.00278 kWh for each cycle since a decision of
  the dispatch was last carried out, and charging can be locked only once these are 1961
  (`StationFaults.LockNeedsOutage`). That number is exact for each way of obstructing the dispatch
  (`StationLimits.CoexistenceIff`), and with none diesel and lock never coexist
  (`StationFaults.DieselAndLockNeverCoexist`).
- As long as the diesel node replies to its commands, the dispatch flag is exactly the record of the decisions that
  could be taken, however often the battery was unreadable or no diesel registered (`StationHistory.DispatchIsHistory`).
- What operations must do, not only what they may: a locked battery takes every discharge and unlocks exactly when
  they suffice (`BatteryRuns.DischargeUnlocksIff`); each cycle commands the energy of five seconds of its surplus
  (`EnergyState.CommandIsEnergy`, `StationHistory.CycleMovesChargeBySurplus`); every node type is on or starting
  exactly when some "on" has had no "off" and no published anomaly since (`WarmUp.DeviceFollowsHistory`); and
  exactly the passes that have to publish do (`Publisher.EveryDueMessageIsPublished`).
- Switching the lock costs energy (`BatteryRuns.EnergyPaysForLockSwitching`), and rounding drifts by at most
  0.000005 kWh per applied command, clamping included (`StationHistory.RoundingDriftBound`).
- Diesel power that the balance counts is zero, or the power of one message of a device with 40 s of uncancelled
  "on" behind it (`StationHistory.DieselPowerIsWarmPower`).
- The delay pipeline refines a specification over each node's own packets (`Delay.TrackerIsHistory`).
- No sampling update is lost in any interleaving (`Publisher.NoLostUpdate`), and the controller's traffic is
  bounded by the changes of the congestion flag (`ControllerRuns.TrafficBound`).
- From delays to the publish timer: once a node's turn in a round gets through, whatever was lost before, the node
  publishes until its next turn at 5000 ms if its last five delays averaged more than 400 ms when the round began
  and at the interval it was built with if not, cut to 15 s, except exactly when the controller sends it nothing
  although it has another interval (`SamplingLoop.DelaysSetThePublishTimer`). Where no reply to the node was lost
  alone and it was built to publish at most every 15 s, there is no exception
  (`SamplingLoop.DelaysSetThePublishTimerWithoutLosses`).
- The printed IPv6 text parses back to the address, for any number of groups (`Ipv6.PrintParse`).

## Where an expected property fails

Each of these is stated with the exact condition under which the property holds.

- Diesel and charge lock can coexist. Over the runs with given kinds of faults in which no outage of the dispatch
  lasts n cycles, they never do if and only if n is at most 1961, or no fault can obstruct the dispatch, or the
  diesel is never answered and so never dispatched (`StationLimits.CoexistenceIff`). Failing battery reads alone, a
  lost registration alone, or unanswered commands alone suffice.
- A diesel node that drops out of the registry while dispatched, which one missed probe achieves
  (`StationLimits.ForgottenIsReachable`), is stopped by no run whatever until it registers again or somebody else
  turns it off (`StationLimits.ForgottenDieselKeepsRunning`).
- The dispatch flag says whether the diesel runs, in all runs with given kinds of faults, if and only if nobody else
  commands the diesel and neither lost replies nor error replies occur (`StationLimits.FlagAgreementIff`):
  `set_status` takes any reply for success. A diesel left burning by a lost reply is not stopped before some later
  cycle dispatches it (`StationLimits.StrayDieselKeepsRunning`).
- The battery's charge stays a number in range, whatever texts are PUT to it, if and only if none of them reads as
  "nan", which passes the lock and both clamps (`BatteryRuns.RangeInvariantIff`).
- A printed fixed-point value reads back as the rounded value if and only if that value fits a `long`, is not
  strictly between -1 and 0, where the sign is lost, and loses nothing but zeros to the end of the 16-byte buffer
  (`Battery.ReportReadsBackIff`). The charge of the deployed battery always does (`Battery.ChargeReadsBack`); logged
  deltas need not, since an accepted delta may have more digits than the buffer.
- The liveness sweep leaves exactly the answering nodes, for every pattern of answers, if and only if every probed
  node is removed by its own name and no other's, every node without an address by that of some such node, and no
  probe raises before its request: each node with an address has a port that converts, and the CoAP library can
  make a request for the two (`Registry.SweepIsExactIff`). A node registered without a `node_id` is filed under its
  address but removed under another name, so it survives its own silence
  (`Registry.WellNamedIffRegisteredByName`). A single registration with a port that is not a number ends the whole
  liveness task at its next pass (`Registry.BadPortEndsTask`), and no silent node is ever removed again
  (`Registry.RaisingEndsSweepsForGood`).
- `sent_ms` counts whole seconds and overflows with the sensor's unsigned long, after 49.7 days where that has 32
  bits. So the documented law "delay = transit - smallest transit" holds for all transit times if and only if all
  packets hide the same part of their uptime (`Delay.DocumentedLawIff`), that is, leave at the same fraction of a
  second and between the same overflows (`Delay.SameLossIff`). Between two overflows it is off by up to 999 ms, which
  alone can raise the congestion flag (`Delay.QuantisationAloneCongests`); after one the node stays congested for
  the rest of its boot (`Delay.OverflowCongestsForGood`).
- The controller's record of what it commanded equals the sensor's interval in every run, with atomic requests, if
  and only if the boot interval is not between 15001 and 60000 ms (`ControllerRuns.AtomicAgreementIff`). If
  replies can be lost it does so only for nodes with nothing to recover to (`ControllerRuns.LossyAgreementIff`):
  a lost reply to the recovery command leaves the cloud believing that the node is slow
  (`ControllerRuns.LostRecoveryMisleads`), and then a congestion that returns is not answered
  (`ControllerRuns.LostReplyDisablesSlowdown`). In one run they disagree exactly when the last PUT that took effect
  left another interval than the recorded one (`ControllerRuns.DisagreementIff`).
- A PUT of a negative interval is accepted exactly when it lies within 60000 of minus the unsigned range, because
  `strtoul` wraps it (`Sampling.NegativeAcceptedIff`).

Where code and documentation disagree the model follows the code: the congestion threshold is 400 ms, not the
500 ms of the docstring at cloud-application/cloud_app.py:98; charging resumes at 75 %, not only below it.

## Model

| member | source | states |
|---|---|---|
| Hysteresis.PositionIsHistory | cloud-application/utils/energy_state.py:103-116 | a two-threshold switch is on iff some sample raised it and none since dropped it, or it started on and none ever did |
| Text.DecimalTextReadsBack | sensors/coap-mqtt-battery-sensor/resources/res-battery.c:31 | a number printed as whole part, point and k zero-padded places is read back exactly, by a JSON reader and by atof |
| Text.AtofOfNan | sensors/coap-mqtt-battery-sensor/resources/res-battery.c:116 | any text that begins with "nan", in letters of either case, is read as a value that is no number |
| Text.AtofOfInf | sensors/coap-mqtt-battery-sensor/resources/res-battery.c:116 | any text that begins with "inf", in letters of either case, is read as an infinity of its sign |
| Text.AtofOfScientific | sensors/coap-mqtt-battery-sensor/resources/res-battery.c:116 | a numeral with a point and an exponent is shifted by that power of ten, up or down |
| Text.AtofOfHex | sensors/coap-mqtt-battery-sensor/resources/res-battery.c:116 | digits behind "0x" are read as hexadecimal |
| Text.StrtoulOfNumeral | sensors/coap-mqtt-sensor/resources/res-sampling.c:75-77 | strtoul reads a numeral whole, saturating above ULONG_MAX and wrapping a minus sign |
| Battery.SocThresholds | sensors/coap-mqtt-battery-sensor/resources/res-battery.c:64-72 | testing the state of charge against 0.95 and 0.75 is testing the charge against those shares of the capacity |
| CutText.CutReadsBackIff | sensors/coap-mqtt-battery-sensor/resources/res-battery.c:45 | what fits the buffer of a fixed-point text reads back as its number iff only zeros behind at least one decimal are cut off, or just the point and zeros |
| Battery.ReportReadsBackIff | sensors/coap-mqtt-battery-sensor/resources/res-battery.c:20-46 | through the 16-byte buffer, whatever an undefined conversion gives, a value reads back as the rounded value iff that fits a long, is not strictly between -1 and 0, and is not cut or loses only zeros |
| Battery.ChargeReadsBack | sensors/coap-mqtt-battery-sensor/resources/res-battery.c:34-46 | through the 16-byte buffer, every non-negative charge reads back as floor(charge * 10^k + 0.5) / 10^k, within half a printed unit, as long as that many units fit a long and 14 digits |
| Battery.RoundScaledIsNearest | sensors/coap-mqtt-battery-sensor/resources/res-battery.c:20-46 | the printed value is the nearest one with that many decimals, away from zero at a tie |
| Battery.BatteryNode.UpdateLockState | sensors/coap-mqtt-battery-sensor/resources/res-battery.c:61-76 | the flag becomes what the lock step on floats says, never changing for a charge that is no number, and nothing else changes |
| Battery.BatteryNode.PutBattery | sensors/coap-mqtt-battery-sensor/resources/res-battery.c:99-153 | for every payload, exponents, hexadecimal, infinities and nan included: 4.00 for an empty one, 4.03 without change for charging while locked and not overridden, else add, clamp and update the lock |
| Battery.PutEffect | sensors/coap-mqtt-battery-sensor/resources/res-battery.c:99-153 | for every payload, by the float it reads as: 4.03 without change exactly for a positive one while locked and not overridden, and otherwise 2.04 with the sum cut to the range, full, empty or no number |
| Battery.AdjustCellOfNumber | sensors/coap-mqtt-battery-sensor/resources/res-battery.c:118-136 | for numbers, C's float comparisons and both clamps amount to the adjustment that the run theorems are about |
| Battery.BatteryNode.PutOverride | sensors/coap-mqtt-battery-sensor/resources/res-battery.c:177-199 | a body starting with on or off sets the override, any other is refused without change |
| Battery.OverrideEffect | sensors/coap-mqtt-battery-sensor/resources/res-battery.c:177-199 | a body beginning with o, n sets the override, one beginning with o, f, f takes it back, any other is refused; the pack is left alone |
| Battery.BatteryNode.FormatFixed | sensors/coap-mqtt-battery-sensor/resources/res-battery.c:20-46 | for every value the buffer holds the fixed-point text of its conversion to a long, cut to leave room for the terminator |
| Battery.BatteryNode.GetBattery | sensors/coap-mqtt-battery-sensor/resources/res-battery.c:78-97 | the report is that of the present state, for every charge, in the texts that the read-back theorems are about |
| Battery.ReportIsDefined | sensors/coap-mqtt-battery-sensor/resources/res-battery.c:83-87 | up to 200000000 kWh no conversion of the report is undefined, on any C compiler |
| BatteryRuns.RunKeepsConsistent | sensors/coap-mqtt-battery-sensor/resources/res-battery.c:61-76 | every run of overrides and commands with numbers as deltas keeps the charge in range, locked at 95 % and above, unlocked at 75 % and below |
| BatteryRuns.RangeInvariantIff | sensors/coap-mqtt-battery-sensor/resources/res-battery.c:116-136 | for any texts PUT, that holds iff none of them reads as nan; otherwise the charge has ceased to be a number for good |
| BatteryRuns.NanIsRead | sensors/coap-mqtt-battery-sensor/resources/res-battery.c:116 | the payload nan is such a text |
| BatteryRuns.OverchargeBound | sensors/coap-mqtt-battery-sensor/resources/res-battery.c:118-136 | without the override, a writer with bounded steps overshoots 95 % by less than one step in every run |
| BatteryRuns.LockIsHistory | sensors/coap-mqtt-battery-sensor/resources/res-battery.c:69-75 | locked iff some accepted command left at least 0.95 and every accepted one since left more than 0.75 |
| BatteryRuns.CommandEffect | sensors/coap-mqtt-battery-sensor/resources/res-battery.c:118-136 | after any run a command leaves the pack alone exactly when it charges while locked and not overridden; any other, every discharge included, is added and cut to the range, and the lock follows 95 % and 75 % |
| BatteryRuns.DischargeUnlocksIff | sensors/coap-mqtt-battery-sensor/resources/res-battery.c:119-136 | a locked pack takes every discharge and unlocks exactly when they add up to what lies between its charge and 75 % |
| BatteryRuns.ReportTellsHistory | sensors/coap-mqtt-battery-sensor/resources/res-battery.c:78-97 | the reported lock is that of the accepted commands, the reported override the last one set |
| BatteryRuns.EnergyPaysForLockSwitching | sensors/coap-mqtt-battery-sensor/resources/res-battery.c:61-76 | from half charge, U unlocks need 0.20 max U drawn, L locks need 0.45 max + 0.20 max (L - 1) stored, locked iff L = U + 1, and the charge is start + stored - drawn |
| BatteryRuns.RunIsOneAddThenClamp | sensors/coap-mqtt-battery-sensor/resources/res-battery.c:132-134 | any run of accepted deltas acts on every start charge as one shift by their sum and one clamp |
| BatteryRuns.DriftBound | sensors/coap-mqtt-battery-sensor/resources/res-battery.c:132-134 | two runs whose deltas differ by at most eps each end at most n eps apart, clamping included |
| BatteryRuns.FirmwareDriftBound | sensors/coap-mqtt-battery-sensor/resources/res-battery.c:118-136 | the firmware's charge stays within n eps of exact accounting over the deltas it accepted, refusals included |
| EnergyState.SentIsClose | cloud-application/utils/coap_client.py:65 | the delta in the text is within 0.000005 kWh of the computed one |
| EnergyState.HalfEvenIsNearest | cloud-application/utils/coap_client.py:65 | rounding goes to the nearest whole number, the even one at a tie |
| EnergyState.CommandReadsBack | cloud-application/utils/coap_client.py:65 | atof on the firmware reads from the command exactly the rounded delta, sign included |
| EnergyState.CommandBounds | cloud-application/utils/energy_state.py:152-160 | one cycle commands at least -0.00417 and at most 0.00278 kWh, whatever the surplus |
| EnergyState.CommandIsEnergy | cloud-application/utils/energy_state.py:152-166 | for every surplus, no command exactly at 0 W; else a text read within 0.000005 of surplus / 720000 in -3000..2000 W, and as 0.00278 or -0.00417 beyond |
| EnergyState.FirmwareGetsSentDelta | sensors/coap-mqtt-battery-sensor/resources/res-battery.c:103-116 | end to end, the firmware adjusts its charge by the rounded delta: the text is not cut and not misread |
| EnergyState.SocOfReport | cloud-application/utils/energy_state.py:69-79 | through both texts, the cloud sees the charge rounded to tenths of a kWh over 10 kWh |
| EnergyState.ThresholdsOnTrueCharge | cloud-application/utils/energy_state.py:33-34 | on the rounded reading, below 0.20 means a true charge under 1.95 kWh and above 0.40 means at least 4.05 kWh |
| EnergyState.SocIsRatio | cloud-application/utils/energy_state.py:69-85 | no state of charge without two numbers and a positive capacity, otherwise their ratio |
| EnergyState.PowerIsAdditive | cloud-application/utils/energy_state.py:59-66 | powers of disjoint type sets add up |
| EnergyState.EnergyBalance.UpdateReading | cloud-application/utils/energy_state.py:40-50 | a producer's convertible payload replaces that node's reading; any other changes nothing |
| EnergyState.ReadingIsProduct | cloud-application/utils/energy_state.py:40-50 | a payload yields a reading iff it names a wind, solar or diesel node and both numbers convert; its power is their product |
| EnergyState.EnergyBalance.UpdateDieselDispatch | cloud-application/utils/energy_state.py:87-126 | the flag follows the two-threshold switch only with a diesel node, a reading and a reply to the command, be it an error |
| EnergyState.EnergyBalance.BalanceCycle | cloud-application/utils/energy_state.py:134-167 | one cycle's flag and command text, the command being that of renewable plus diesel power minus load |
| EnergyState.EnergyBalance.OnMessage | cloud-application/utils/mqtt_client.py:37-46 | a message whose sent_ms does not convert changes no reading, any other is taken as UpdateReading takes it |
| PowerHistory.ReadingsAreLastValid | cloud-application/utils/mqtt_client.py:43-44 | after any telemetry the stored reading of a node is that of its own last message whose sent_ms, v and i convert |
| PowerHistory.PowerAgreesWithHistory | cloud-application/utils/energy_state.py:59-66 | the power counted is the sum over registered nodes of their last valid readings of a wanted type not older than 30 s, whatever the order of arrival |
| PowerHistory.WorthIsRecentPower | cloud-application/utils/energy_state.py:59-66 | a node counts as renewable by its last reading if that is of wind or solar and at most 30 s old, as diesel if of diesel |
| PowerHistory.SweptPowerIsAnsweringWorth | cloud-application/cloud_app.py:80-90 | after a sweep of soundly named nodes none of which raises, the power counted is exactly that of the nodes that answered |
| Dict.StoreKeeps | cloud-application/utils/node_registry.py:54-58 | storing changes the value of one key only |
| Dict.DropKeeps | cloud-application/utils/node_registry.py:98-101 | deleting removes one key only and keeps keys unique |
| Registry.NodeRegistry.AddNode | cloud-application/utils/node_registry.py:51-63 | a node is filed under its node_id, else its address; an existing key keeps its place |
| Registry.NodeRegistry.RemoveNode | cloud-application/utils/node_registry.py:98-101 | exactly that key disappears |
| Registry.SnapshotIsHistory | cloud-application/utils/node_registry.py:104-105 | after any registrations and removals a snapshot holds every registered node once, as last registered, in the order in which they came in |
| Registry.LookupIsLastRegistration | cloud-application/utils/node_registry.py:108-109 | a lookup finds the last registration filed under the key unless that key was removed since |
| Registry.FirstOfTypeIsFirst | cloud-application/utils/energy_state.py:93-97 | the node chosen is the first of its type in registration order, none only if there is none |
| Registry.SweepLiveness | cloud-application/cloud_app.py:80-90 | the loop over the snapshot leaves the registry that the pass specification gives, and is stopped by an exception iff some node raises |
| Registry.RaisesIff | cloud-application/utils/coap_client.py:135-145 | a probe raises iff the node has an address and its port, 5683 by default, does not convert or makes no request with it |
| Registry.PassRemoves | cloud-application/cloud_app.py:82-90 | after a pass a key is registered iff it was and no silent node before the first that raises is removed by that name |
| Registry.SweepIsExactIff | cloud-application/utils/coap_client.py:135-163 | the sweep leaves exactly the answering nodes for every pattern of answers iff each probed node is removed by its own name only, each node without an address by that of some such node, and no probe raises |
| Registry.AddressedSweepIsExactIff | cloud-application/cloud_app.py:82-90 | where every node has an address, the sweep is exact for every pattern of answers iff each is filed under its removal name and no probe raises |
| Registry.WellNamedIffRegisteredByName | cloud-application/utils/node_registry.py:53 | being filed under one's removal name, said of the registrations: a node_id, or a stand-in equal to that name |
| Registry.RaisingEndsSweepsForGood | cloud-application/cloud_app.py:80-91 | after a pass that meets a node which raises, in every continuation the registry changes only by registrations and unregistrations |
| Registry.BadPortEndsTask | cloud-application/utils/coap_client.py:139 | one registration with an address and a port that is no number ends the liveness task at its next pass, and among well named nodes stays registered itself |
| DeviceStatus.DeviceNode.Put | sensors/coap-mqtt-sensor/resources/res-status.c:66-114 | for every body and warm-up time: off cancels the timer and stops, on starts the timer only from off (or is immediate without a warm-up), anything else is refused without change |
| DeviceStatus.ReplyIsStatus | sensors/coap-mqtt-sensor/resources/res-status.c:66-114 | a valid PUT is answered by the status the device then has, any other body is refused without change |
| DeviceStatus.DeviceNode.OnStartupTimer | sensors/coap-mqtt-sensor/coap-mqtt-sensor.c:179-184 | the timer callback ends the warm-up and turns the device on |
| DeviceStatus.DeviceNode.PublishTelemetry | sensors/coap-mqtt-sensor/coap-mqtt-sensor.c:410-508 | the message and the shutdown after an anomaly, for every random draw and node configuration |
| DeviceStatus.MessageTells | sensors/coap-mqtt-sensor/coap-mqtt-sensor.c:415-460 | status, zeros unless on, readings within the configured ranges or those of a fault, and an anomaly iff on and a fault was injected or the readings are anomalous |
| DeviceStatus.AnomalyBoxes | sensors/coap-mqtt-sensor/detect_anomaly.h:8-50 | the anomalous readings are three boxes of voltage and current |
| WarmUp.HeldSinceIsFirstOn | sensors/coap-mqtt-sensor/resources/res-status.c:91-103 | the moment the warm-up counts from is the first on after the last off |
| WarmUp.WarmUpSafety | sensors/coap-mqtt-sensor/resources/res-status.c:79-109 | for every node type booted off and every interleaving: on only its warm-up time after an uncancelled on, starting iff the timer runs, never both |
| WarmUp.DeviceFollowsHistory | sensors/coap-mqtt-sensor/resources/res-status.c:79-109 | every node type, booted on or off, is on or starting iff some on has had no off and no published anomaly since, or it booted on and had neither; without warm-up it is then on, with one its timer is due that time after the first such on |
| WarmUp.TimerTurnsOn | sensors/coap-mqtt-sensor/coap-mqtt-sensor.c:179-184 | the timer of a starting device, once due, turns it on, and never earlier |
| WarmUp.PublishTells | sensors/coap-mqtt-sensor/coap-mqtt-sensor.c:410-508 | every publish sends one message with the status of the moment, and turns the device off exactly when that reports an anomaly |
| WarmUp.TelemetryIsHonest | sensors/coap-mqtt-sensor/coap-mqtt-sensor.c:415-426 | every message ever sent with non-zero power left a device that had its warm-up time of uncancelled on behind it |
| WarmUp.DieselReadingsAreNormal | sensors/coap-mqtt-sensor/detect_anomaly.h:8-50 | no reading in the diesel range is classed as an anomaly; an on diesel reports at least 1100 W |
| WarmUp.DieselFollowsCommands | sensors/coap-mqtt-diesel-sensor/project-conf.h:7-22 | the diesel is on or warming up iff some on has had no off since, and its timer is due 40 s after the first such on |
| Station.StepKeepsGood | cloud-application/utils/energy_state.py:129-196 | every event keeps range, lock rule and override off, and moves the charge by at most one step per completed cycle |
| Station.OverchargeBound | sensors/coap-mqtt-battery-sensor/resources/res-battery.c:61-76 | in every reachable state of the closed loop the lock obeys both thresholds and the charge is below 9.5 + 0.00278 kWh |
| Station.FlipNeedsThreshold | cloud-application/utils/energy_state.py:105-124 | whatever fails, a flip follows a reply to its command and has its own threshold in the same cycle |
| Station.ChargeMovesPerCycle | cloud-application/utils/energy_state.py:152-166 | between any two moments of a run the charge moves at most +0.00278 and -0.00417 kWh per completed cycle |
| Station.NextCycleAfterFiveSeconds | cloud-application/utils/energy_state.py:129-132 | after a cycle the next one begins if and only if 5000 ms have passed |
| Station.DieselRunsAndRestsLong | cloud-application/utils/energy_state.py:105-124 | at least 756 cycles and 63 minutes from on to off, 504 cycles and 42 minutes from off to on, in every run |
| StationFaults.LockNeedsOutage | cloud-application/utils/energy_state.py:100-124 | in every run, dispatched implies a charge below 4.05 kWh plus 0.00278 per cycle since a decision was carried out, and with the lock closed these are at least 1961 |
| StationFaults.DieselAndLockNeverCoexist | cloud-application/utils/energy_state.py:100-124 | with battery answers, a registered diesel and answered diesel commands, dispatched implies a charge below 4.05278 kWh and an unlocked battery |
| StationHistory.DispatchIsHistory | cloud-application/utils/energy_state.py:97-126 | with answered diesel commands, dispatched iff some decision that could be taken found under 1.95 kWh and a deficit and every later one under 4.05 kWh; unreadable and unregistered cycles are allowed |
| StationHistory.DieselPowerIsWarmPower | cloud-application/utils/energy_state.py:134-140 | the diesel power counted at any moment is zero or the power of one message, received at most 30 s ago, of the registered diesel, which was warm when it sent it |
| StationHistory.DeliveredPowerCounts | cloud-application/utils/energy_state.py:59-66 | a message of the registered diesel that arrives is all the diesel power counted, for 30 s or until the next |
| StationHistory.FlagAgreesInRun | cloud-application/utils/energy_state.py:117-124 | without outsiders, lost replies and error replies, dispatched iff the diesel is on or warming up |
| StationHistory.RoundingDriftBound | cloud-application/utils/coap_client.py:65 | after n applied commands the battery is within n * 0.000005 kWh of the charge exact deltas would have given |
| StationHistory.UninterruptedCycle | cloud-application/utils/energy_state.py:129-167 | the interleaved steps, run without interruption, are the atomic cycle of BalanceCycle |
| StationHistory.CycleMovesChargeBySurplus | cloud-application/utils/energy_state.py:134-166 | one uninterrupted cycle adds the energy of five seconds of the surplus to the charge, cut to the range, unless it would charge a locked battery |
| StationLimits.ForgottenDieselKeepsRunning | cloud-application/utils/energy_state.py:91-97 | a dispatched diesel without a registered diesel node stays dispatched and running in every continuation, until one registers or somebody else commands it |
| StationLimits.ForgottenIsReachable | cloud-application/cloud_app.py:80-90 | there is a run that loses the node after dispatching it |
| StationLimits.StrayDieselKeepsRunning | cloud-application/utils/energy_state.py:117-126 | a diesel that burns undispatched is not stopped until some cycle dispatches it or somebody else commands it |
| StationLimits.FlagAgreementIff | cloud-application/utils/coap_client.py:268-291 | flag and device agree in all runs with given faults iff there are no outsiders, no lost replies and no error replies |
| StationLimits.CoexistenceIff | cloud-application/utils/energy_state.py:100-124 | diesel and lock never meet in runs with given faults and outages shorter than n cycles iff n is at most 1961, or nothing can obstruct, or no command is ever answered |
| Delay.DelayTracker.UpdateDelayState | cloud-application/utils/influxdb_connect.py:47-83 | that node's window and state are replaced, the others untouched |
| Delay.DelayTracker.SaveToInfluxdb | cloud-application/utils/influxdb_connect.py:102-126 | offset, window and state after a packet; the delay is never negative |
| Delay.StateIsHistory | cloud-application/utils/influxdb_connect.py:86-92 | what is answered for a node after any packets: nothing before its first, then the number up to five, exact mean and verdict of its own recent delays |
| Delay.TrackerIsHistory | cloud-application/utils/influxdb_connect.py:47-83 | after any interleaving each node's offset is the minimum of its own gaps, its window the last five of its own delays over prefix minima, its state their mean and verdict |
| Delay.CongestedIffSum | cloud-application/utils/influxdb_connect.py:51-52 | congested iff the delays in the window sum to more than 400 times their number |
| Delay.FiveQuickPacketsClear | cloud-application/utils/influxdb_connect.py:49-52 | five consecutive delays of at most 400 ms clear congestion, whatever came before |
| Delay.DelayIsExcess | cloud-application/utils/influxdb_connect.py:123-126 | a delay is non-negative and at most the excess over the fastest packet of the whole run |
| Delay.BootOffsetIndependence | cloud-application/README.md:39-70 | the delays of one boot do not depend on when the sensor booted |
| Delay.DelayIsExtraTransit | sensors/coap-mqtt-sensor/coap-mqtt-sensor.c:413 | between two overflows of sent_ms, the delay is the extra transit time over the fastest packet so far, up to 999 ms of hidden uptime |
| Delay.DocumentedLawIff | cloud-application/README.md:61-70 | the documented law holds for all transit times iff all packets hide the same part of their uptime |
| Delay.SameLossIff | sensors/coap-mqtt-sensor/coap-mqtt-sensor.c:413 | that is, iff they leave at the same fraction of a second and between the same overflows of the unsigned long |
| Delay.OverflowCongestsForGood | sensors/coap-mqtt-sensor/coap-mqtt-sensor.c:413 | once sent_ms has overflowed, every later packet of the boot leaves the node congested |
| Delay.QuantisationAloneCongests | cloud-application/utils/influxdb_connect.py:105-126 | six packets without any transit delay that end with a congested node |
| Sampling.PutThenGet | sensors/coap-mqtt-sensor/resources/res-sampling.c:42-88 | decimal x, PUT, GET gives min(x, 15000) for 1..60000; every other numeral of any length is refused without change |
| Sampling.AcceptedIff | sensors/coap-mqtt-sensor/resources/res-sampling.c:54-88 | any body is accepted iff its first 31 bytes up to a NUL are blanks, an optional sign and digits and nothing else, asking for 1..60000; then that is the interval, cut to 15 s |
| Sampling.SetIntervalTells | sensors/coap-mqtt-sensor/sampling_control.c:42-60 | 0 stands for the built-in interval, 15 s is the most, and flag and poll are raised exactly at a change |
| Sampling.NegativeAcceptedIff | sensors/coap-mqtt-sensor/resources/res-sampling.c:75-77 | minus x is accepted iff x is within the top 60000 of the unsigned range |
| Sampling.TicksCover | sensors/coap-mqtt-sensor/sampling_control.c:21-34 | the least number of ticks that covers the interval, or 65535 when that does not fit |
| Sampling.TicksMonotone | sensors/coap-mqtt-sensor/sampling_control.c:21-34 | longer intervals never get fewer ticks |
| Sampling.TicksUnsaturatedIff | sensors/coap-mqtt-sensor/sampling_control.c:21-34 | every interval up to 15 s is covered iff the clock is at most 4369 Hz |
| Sampling.KeepAliveCoversIff | sensors/coap-mqtt-sensor/coap-mqtt-sensor.c:134-150 | for every 32-bit interval the keep-alive covers three intervals iff they fit in 65535 s, and then it is the least that does |
| Publisher.MqttSensor.SetPublishIntervalMs | sensors/coap-mqtt-sensor/sampling_control.c:42-60 | the interval is defaulted and capped; a changed one is marked dirty and polled for |
| Publisher.MqttSensor.ResPutSampling | sensors/coap-mqtt-sensor/resources/res-sampling.c:54-88 | a refused body changes nothing, an accepted one sets the interval |
| Publisher.MqttSensor.MqttEventHandler | sensors/coap-mqtt-sensor/coap-mqtt-sensor.c:344-408 | connection state, attempt counter and poll after each broker event |
| Publisher.EventEffect | sensors/coap-mqtt-sensor/coap-mqtt-sensor.c:344-408 | broker events set the connection state and are polled for, an acknowledged subscription too |
| Publisher.MqttSensor.Run | sensors/coap-mqtt-sensor/coap-mqtt-sensor.c:534-590 | one pass of the process loop: state, timer and the message published, if any |
| Publisher.PassEffect | sensors/coap-mqtt-sensor/coap-mqtt-sensor.c:534-590 | what every pass does about an expired timer in each connection state, and that it publishes iff connected, expired, with connectivity and ready once the poll is handled |
| Publisher.EveryDueMessageIsPublished | sensors/coap-mqtt-sensor/coap-mqtt-sensor.c:575-585 | in every run exactly the passes that had to publish did, one message each, with the interval of the moment |
| Publisher.PublishingWaitsForInterval | sensors/coap-mqtt-sensor/coap-mqtt-sensor.c:579-585 | having published, the process waits the least number of ticks that covers its interval, or 65535 |
| Publisher.SilentBrokerIsRetried | sensors/coap-mqtt-sensor/coap-mqtt-sensor.c:547-573 | a connected process publishes at every served expiry; a disconnected one connects at the first, gives a silent broker up at the fifth, and connects again at the sixth |
| Publisher.NoLostUpdate | sensors/coap-mqtt-sensor/coap-mqtt-sensor.c:534-589 | in every interleaving a dirty interval of a connected node has a poll pending, and without a poll pending the publish timer runs on the latest interval |
| Publisher.PollAppliesLatestInterval | sensors/coap-mqtt-sensor/coap-mqtt-sensor.c:537-543 | delivering the pending poll puts the latest interval into force at once |
| Publisher.MessagesAreNumbered | sensors/coap-mqtt-sensor/coap-mqtt-sensor.c:575-585 | telemetry is published only while connected, and the k-th message is numbered k modulo the range of an unsigned long |
| Publisher.ConnectingEnds | sensors/coap-mqtt-sensor/coap-mqtt-sensor.c:562-573 | a stretch that stays in CONNECTING services at most three counted expiries; the fourth ends it |
| Publisher.KeepAliveCoversThreeIntervals | sensors/coap-mqtt-sensor/coap-mqtt-sensor.c:552-559 | at every connection of every run the keep-alive covers three of the current intervals iff three boot intervals fit in 65535 s |
| Controller.CongestionMonitor.VisitNode | cloud-application/cloud_app.py:116-166 | what one node's turn does to baseline, record and sensor, and whether its failure ends the round |
| ControllerRuns.UndecidedVisit | cloud-application/cloud_app.py:116-140 | a battery, no delay state, fewer than three samples or no baseline: no record and no sensor changes, nothing is sent and the round goes on |
| ControllerRuns.VisitLearns | cloud-application/cloud_app.py:120-136 | the first answered GET of a producer makes its present interval the baseline, for good |
| ControllerRuns.DecidedVisit | cloud-application/cloud_app.py:138-157 | otherwise 5000 or the baseline is PUT unless it was commanded last; sensor, record and the end of the round by what became of the PUT |
| Controller.CongestionMonitor.MonitorRound | cloud-application/cloud_app.py:102-168 | one round: records of unregistered nodes forgotten, then every node in turn until one fails |
| ControllerRuns.SensorPutValue | sensors/coap-mqtt-sensor/sampling_control.c:42-60 | through its text, a target of 1..60000 sets the sensor to that interval or 15 s, any other is refused without change |
| ControllerRuns.SensorHasBootOrCongestedInterval | cloud-application/cloud_app.py:120-147 | whatever is lost, a learned baseline is the boot interval and the sensor has that, or 5000 ms, or 15 s if the boot interval is longer |
| ControllerRuns.AtomicAgreementIff | cloud-application/cloud_app.py:149-157 | with atomic requests the record equals the sensor's interval in every run iff the boot interval is not in 15001..60000 |
| ControllerRuns.LossyAgreementIff | cloud-application/cloud_app.py:149-157 | with lost replies it does in every run iff the boot interval is 5000, 0 or above 60000 |
| ControllerRuns.RunIsTold | cloud-application/cloud_app.py:152-157 | in every run the record is the target of the last PUT known to have succeeded since the node was last forgotten, and the interval what the last PUT that took effect left |
| ControllerRuns.DisagreementIff | cloud-application/cloud_app.py:149-157 | in one run record and sensor disagree iff there is a record and the last PUT that took effect left another interval; then its reply was lost or its target cut |
| ControllerRuns.LostRecoveryMisleads | cloud-application/cloud_app.py:149-157 | in any reachable world a recovery command whose reply is lost leaves the record at 5000 and the node at its own interval |
| ControllerRuns.LostReplyDisablesSlowdown | cloud-application/cloud_app.py:142-157 | wherever the record is 5000, whatever the interval really is, no rounds that sample only congestion for the registered node change it, whatever else they visit and lose |
| ControllerRuns.TrafficBound | cloud-application/cloud_app.py:142-157 | in one registration, at most one successful PUT more than changes of the sampled flag, and at most one for a 5000 ms baseline |
| SamplingLoop.TurnIsVisit | cloud-application/cloud_app.py:112-157 | a turn that commands real publishing processes is the visit that the controller's theorems are about |
| SamplingLoop.RunKeepsParts | cloud-application/cloud_app.py:102-168 | in every run of the whole loop the delay state is that of the packets so far, every publishing process is sound, baseline and intervals are as the controller has them, and without lost replies record and sensor agree |
| SamplingLoop.NoCommandBeforeThreePackets | cloud-application/cloud_app.py:138-140 | in every run a node of which fewer than three packets have arrived has the interval it was built with |
| SamplingLoop.RoundIsUnderWay | cloud-application/cloud_app.py:116-163 | a round goes on from its start, whatever else happens, until one of its turns fails |
| SamplingLoop.DelaysSetThePublishTimer | cloud-application/cloud_app.py:104-157 | end to end in every run, with anything between a round's start and the node's turn: after a turn that gets through the node publishes at the target of its delays at the round's start, cut to 15 s, until its next turn, exactly unless the controller sends it nothing while it has another interval |
| SamplingLoop.DelaysSetThePublishTimerWithoutLosses | cloud-application/cloud_app.py:104-157 | for a boot interval in 1..15000 and no reply to the node lost alone before its turn, it always publishes at that target |
| SamplingLoop.PollPutsIntoForce | sensors/coap-mqtt-sensor/coap-mqtt-sensor.c:537-543 | delivering the poll to a connected process with a new interval sets its timer to that interval |
| Ipv6.EmitByPieces | sensors/rpl-border-router/webserver/webserver.c:67-81 | what the loop still prints is this iteration's piece and then what the next phase prints |
| Ipv6.Shape | sensors/rpl-border-router/webserver/webserver.c:62-82 | the text is all groups joined by colons, with "::" for the first run of zero groups |
| Ipv6.JoinParses | sensors/rpl-border-router/webserver/webserver.c:79 | colon-joined hexadecimal groups parse back |
| Ipv6.PrintParse | sensors/rpl-border-router/webserver/webserver.c:62-82 | parsing the text of any number of groups gives back exactly those groups |
| Ipv6.PrintIsInjective | sensors/rpl-border-router/webserver/webserver.c:62-82 | distinct addresses never print alike |
| Ipv6.AddressIsPrintable | sensors/rpl-border-router/webserver/webserver.c:79 | the text consists of digits, lower-case hexadecimal letters and colons |
| Ipv6.DoubleColonIffZeroGroup | sensors/rpl-border-router/webserver/webserver.c:69-72 | "::" appears iff some group is zero, and then once |
| Ipv6.TextLength | sensors/rpl-border-router/webserver/webserver.c:62-82 | n groups print to at most 5n - 1 characters |
| WebServer.LineBuffer.Add | sensors/rpl-border-router/webserver/webserver.c:45-49 | snprintf into the rest of the buffer: appended if it fits, else cut at 255 characters, the length advancing by the full text |
| WebServer.LineBuffer.Send | sensors/rpl-border-router/webserver/webserver.c:50-53 | the line leaves and the buffer is empty |
| WebServer.LineBuffer.IpaddrAdd | sensors/rpl-border-router/webserver/webserver.c:62-82 | the loop over byte pairs appends the address text |
| WebServer.LineBuffer.NeighborLine | sensors/rpl-border-router/webserver/webserver.c:97-100 | the line sent is complete for every address |
| WebServer.LineBuffer.RouteLine | sensors/rpl-border-router/webserver/webserver.c:111-117 | the line sent is complete for every route, length and lifetime |
| WebServer.LineBuffer.LinkLine | sensors/rpl-border-router/webserver/webserver.c:137-145 | the line sent is complete for every link and lifetime |

## Left out

- Single-precision rounding in the battery firmware and double rounding in Python: charges, deltas and powers are real numbers.
- JSON syntax: a report is its four values, a payload its fields; only the number texts inside are read.
- CoAP, MQTT and InfluxDB transport: a request is completed, answered with an error and without effect, lost, or completed with its reply lost, and is never applied twice or after its exchange has ended.
- The cloud's CoAP telemetry endpoint, LED, toggle and push resources, observation callbacks, logging and stored points.
- Reboots of a sensor or of the battery: every theorem is about one boot and one cloud process.
- The random load and simulated readings: arbitrary inputs, within the configured ranges for the readings of a node.
- `last_seen_ms`, `update_heartbeat`, `get_expired_nodes` and `get_node_by_ip`: nothing reads or calls them.
- Threads: the MQTT callback and each stretch between two awaits are atomic.
- A registration or unregistration during a liveness sweep, and non-string values in a registration other than its port.
- Interleaved connections sharing the one line buffer, and `httpd-simple.c`.
- The dotted IPv4 form of section 2.2 of RFC 4291, which the printer never writes.
- WebServer.LineBuffer.Add: does not cover an ADD after the length has passed the buffer size, where the size argument would wrap; no line gets there.
- WebServer.LineBuffer.IpaddrAdd: is specified for lines with room for the whole text; every line of the page has it.
- EnergyState.EnergyBalance.UpdateReading: a v or i that converts to nan or infinity is not modelled; powers are numbers.
- Several battery or diesel nodes: the closed loop has one of each, as in the deployed network.
- StationHistory.DieselPowerIsWarmPower: speaks of the one diesel node of the closed loop.
- What the MQTT library does with an exception out of the message callback: the message is dropped.
- Which addresses and ports the CoAP library makes a request for: a parameter of the sweep.
- ControllerRuns.TrafficBound: counts PUTs whose success the cloud saw; a lost reply is repeated without limit.
