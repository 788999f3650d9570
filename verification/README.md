# Verified models of the grid gateway

Dafny 4.11 models of five parts of the gateway, with machine-checked proofs of what they promise. `dafny verify
dfyconfig.toml` checks everything.

- **IEC 60870-5-104 outbound** (`Iec104*.dfy`). A session is a state machine over the steps between two `await` points:
  the reader, the interrogation task, telemetry updates, the writer task and the write lock interleave freely. Numbering,
  the k-window, the lossy spontaneous queue and the lossless interrogation queue follow sections 5.1 and 5.5 of
  IEC 60870-5-104. The main result is convergence: the master ends up showing what telemetry brought last. `Iec104Apci`
  is the framing, `Iec104Reassembly` the reading of the byte stream, `Iec104Values` what values, addresses and octets mean,
  `Iec104Registry` the point registry, `Iec104Server` the classes as written, each method tied to a step.
- **Alarm service** (`Alarm*.dfy`). `AlarmEngine` interleaves the evaluating thread, between its locked sections, with the
  notifier thread and its bounded queue; `AlarmDebounce` says which raises are debounced. `AlarmRules` is the rule index,
  `AlarmEvaluation` hysteresis, formulas and composite rules, `AlarmSamples` the pruned sample store, `AlarmService` the
  classes as written, `AlarmReadings` what they make of a series of readings.
- **Modbus TCP outbound** (`Modbus*.dfy`). Live updates and snapshots merged by timestamp into sparse cells, read through
  the PDU handler (sections 6.1 to 6.4 of the MODBUS Application Protocol Specification V1.1b3). `ModbusStore` and
  `ModbusManager` are the classes and loops as written; `ModbusMaster` decodes the answers octet by octet, and
  `ModbusSync` says which fetches of the synchroniser are full.
- **WiFi guard** (`Wifi*.dfy`). One radio, access point or client: guard, grace, retries, radio rescue and requests as a
  timed state machine; `WifiCommands` is what is on disk and on the air after each command, and what a crash between two of
  them leaves behind; `WifiDaemon` is the daemon as written.
- **Firewall** (`Firewall*.dfy`, `Text.dfy`). Validation of the configuration, its compilation to ordered chains, and a
  first-match reading of the chains; `FirewallTables` appends the entries one by one, `FirewallWalk` follows a packet
  through tables that hold more than the firewall's chains, `FirewallTexts` says what numbers, ranges and comments are, and
  `FirewallRequests` leads from the request to the verdict.

Conventions. State machines are total: an action that is not enabled changes nothing, so a run is any sequence of actions.
Fields such as `enqueued`, `made`, `past` or `log` are history that the program does not keep. Clocks, command outcomes and
network events are parameters of the steps. Numbers are mathematical reals; widths and wrap-around are written out. Every
lemma is proved explicitly, with automatic induction off. What an implementation is proved equal to is a function; what
that function means is said again, without naming it, by further lemmas.

Where code and documentation differ, the code is followed, and the difference is a theorem:

- an alarm can be raised before its debounce has passed, when a rollback falls between marking the key and reading a mark
  that is too young (`AlarmDebounce.RollbackSkipsDebounce`) - exactly then, unless an earlier rollback had taken an older
  mark of the same streak (`AlarmDebounce.DebouncedExactly`);
- a raise that the backend stores without confirming leaves an alarm open that the engine never clears
  (`AlarmEngine.UnconfirmedStaysOpen`);
- a plan change during a partial fetch can be followed by another partial one (`ModbusSync.RequestIsLost`);
- STOPDT with a queued frame can make a later interrogation answer stale (`Iec104Restart.RestartGoesStale`);
- from 32768 received I-frames on a session sends nothing (`Iec104Wire.SilencedByReceiveCounter`);
- a link that comes up briefly lifts the spacing of retries (`WifiGuard.BriefLinkForgets`);
- three requests take the access point down without a guard (`WifiCommands.GuardComesFirst`), and a guard file that does
  not parse stops the enforcement of the role (`WifiGuard.UnreadableGuardStops`);
- an entry in front of a hook that is already there decides before the firewall does (`FirewallWalk.HookDecides`);
- how a stream with a malformed unit is cut can decide what is dispatched (`Iec104Reassembly.CuttingsAgree`);
- a comment cut right after a blank changes when the stored configuration is validated again (`FirewallConfig.CleanTwice`);
- the impossible source address of the firewall's signature entry passes the chain (`Basic` in `Firewall`).

## Model

| member | source | states |
|---|---|---|
| `Iec104Convergence.Convergence` | apps/iec104-outbound/iec104_outbound/server.py:335-392 | Distinct keys and addresses, a new session that is started and never stopped, an interrogation that has been answered, and no outbox drop since it was asked: at every later step, whatever the interleaving and whatever other interrogations follow, every point of the address (every point, for 65535) is settled; so once nothing is on its way the master shows at the point's address what the last value telemetry brought for it means: on exactly if it is not zero, the number, or its whole part towards zero, with the value's quality; and a bad zero for a value that does not convert or never came. |
| `Iec104Values.CacheIsLatest` | apps/iec104-outbound/iec104_outbound/server.py:362-367 | In every run the server's cache holds the last value telemetry brought for a point. |
| `Iec104Values.CurrentShows` | apps/iec104-outbound/iec104_outbound/server.py:868-922 | What each kind of point reports for each kind of value, with its quality. |
| `Iec104Convergence.ReportSettles` | apps/iec104-outbound/iec104_outbound/server.py:837-862 | Putting the interrogation frame of a point settles it if and only if no stale spontaneous frame of the point waits behind it. |
| `Iec104Convergence.InterrogationConverges` | apps/iec104-outbound/iec104_outbound/server.py:810-866 | From any state in the invariant: a point of the interrogated address is settled from the answer on, whatever telemetry, S-frames, writer steps and further interrogations come in between and after it. |
| `Iec104Convergence.StaysSettled` | apps/iec104-outbound/iec104_outbound/server.py:335-392 | A settled point stays settled along every live run that neither stops the session nor drops the point's only queued frame. |
| `Iec104Convergence.TelemetryKeeps` | apps/iec104-outbound/iec104_outbound/server.py:368-392 | A changed value is queued and settles its own point; an update of another point disturbs a settled point only through a drop. |
| `Iec104Convergence.SettledWhenDrained` | apps/iec104-outbound/iec104_outbound/server.py:1012-1067 | Settled and nothing on its way: the master's image at the point's address is the server's current reading. |
| `Iec104Restart.RestartGoesStale` | apps/iec104-outbound/iec104_outbound/server.py:376-383 | Why the session must not be stopped: a run with STOPDT, an update and STARTDT while a frame is queued, then an interrogation answered in full, after which the point is not settled although nothing was dropped. |
| `Iec104SessionInvariants.InvStep` | apps/iec104-outbound/iec104_outbound/server.py:924-1067 | Every step of reader, interrogation task, telemetry, writer and write lock keeps numbering, window, conservation, plan, order and wake-up. |
| `Iec104SessionInvariants.NoLostWakeupStep` | apps/iec104-outbound/iec104_outbound/server.py:1029-1037 | The writer never sleeps with a frame queued and its event clear, nor stays parked with the window open. |
| `Iec104SessionInvariants.GiOrderedStep` | apps/iec104-outbound/iec104_outbound/server.py:234-249 | The interrogation frames handed over, in the writer's hand, queued and held are those made, in the order made, however long the window stalls. |
| `Iec104SessionInvariants.FollowsPlanStep` | apps/iec104-outbound/iec104_outbound/server.py:810-866 | The frames made so far are a prefix of the plan of all answered interrogations, and what is left to do is the rest of it. |
| `Iec104SessionInvariants.AppendConserves` | apps/iec104-outbound/iec104_outbound/server.py:205-232 | Appending to the bounded queue keeps: queue is a suffix of at most 2000, enqueued = taken + queued + dropped. |
| `Iec104Wire.WireIsNumbered` | apps/iec104-outbound/iec104_outbound/server.py:945-962 | In every run the I-frames on the wire carry N(S) = 0, 1, 2, ... modulo 32768. |
| `Iec104Wire.AtMostTwelveSinceS` | apps/iec104-outbound/iec104_outbound/server.py:990-1010 | After an S-frame at most twelve more I-frames are handed over until the next one. |
| `Iec104Wire.SendsExactlyBelowLimit` | apps/iec104-outbound/iec104_outbound/server.py:945-962 | An open session with room in its window hands over a frame if and only if fewer than 32768 I-frames have been received. |
| `Iec104Wire.SilencedByReceiveCounter` | apps/iec104-outbound/iec104_outbound/server.py:542-546 | From the 32768th received I-frame on no data leaves any more, whatever happens. |
| `Iec104Wire.SpontaneousConserved` | apps/iec104-outbound/iec104_outbound/server.py:205-232 | Reachable states: the outbox is the newest part of what was enqueued, at most 2000; enqueued = taken + queued + dropped; the wire keeps the order. |
| `Iec104Wire.InterrogationsOnWire` | apps/iec104-outbound/iec104_outbound/server.py:810-866 | In every run the interrogation frames on the wire are a prefix of the plan (confirmation, points, termination of each answered interrogation); all of it once a live session is drained. |
| `Iec104Wire.ScriptIsScope` | apps/iec104-outbound/iec104_outbound/server.py:837-856 | The plan of one interrogation reports each registry point of its address as often as the registry lists it, and no other. |
| `Iec104Wire.ScriptIsOrdered` | apps/iec104-outbound/iec104_outbound/server.py:837-856 | ... in registry order. |
| `Iec104Values.ScriptMeans` | apps/iec104-outbound/iec104_outbound/server.py:810-866 | An interrogation is confirmed and ended with its own address, or the default one for 0, and reports exactly the points of that address in between, or all for 65535. |
| `Iec104Values.OneAtATime` | apps/iec104-outbound/iec104_outbound/server.py:798-808 | An interrogation is taken up if none is being answered, and otherwise ignored. |
| `Iec104Wire.InterrogationFirst` | apps/iec104-outbound/iec104_outbound/server.py:1027-1042 | The writer takes no spontaneous frame before it has taken every interrogation frame made earlier. |
| `Iec104Wire.CanDrain` | apps/iec104-outbound/iec104_outbound/server.py:1012-1067 | No deadlock: from every live state of the invariant the session can send all it has with its own steps and the S-frames the master owes, changing no value. |
| `Iec104Wire.ReceivedAreAcknowledged` | apps/iec104-outbound/iec104_outbound/server.py:541-546 | The S-frames sent are exactly S(12), S(24), ..., one for every twelfth I-frame received. |
| `Iec104Wire.WireReassembles` | apps/iec104-outbound/iec104_outbound/server.py:470-488 | End to end: whatever the encoding of the data and the cutting into chunks, a reader of the wire dispatches exactly the frames sent. |
| `Iec104Server.ClientSession.Enqueue` | apps/iec104-outbound/iec104_outbound/server.py:205-232 | Full queue: the oldest frame makes room and is counted; the new state is the step of the state machine. |
| `Iec104Server.ClientSession.SendI` | apps/iec104-outbound/iec104_outbound/server.py:924-962 | Full window drops, an unencodable number resets `ns`, a closed writer unregisters; otherwise the frame is numbered and queued for the lock. |
| `Iec104Wire.FailedSendIsLast` | apps/iec104-outbound/iec104_outbound/server.py:972-988 | A send that fails under the lock is the last of its session: in every later run neither that frame nor any behind it, asked for before or after, reaches the wire, and no update is queued for the session any more. |
| `Iec104Wire.ClosedIsLast` | apps/iec104-outbound/iec104_outbound/server.py:990-1067 | A hang-up and a writer that has waited too long for the window end it the same way: nothing more reaches the wire in any run. |
| `Iec104Server.ClientSession.DrainRound` | apps/iec104-outbound/iec104_outbound/server.py:1029-1067 | One round of the writer task is the writer step of the state machine. |
| `Iec104Server.Server.UpdatePoint` | apps/iec104-outbound/iec104_outbound/server.py:335-392 | With any number of sessions, an update is for each of them the update step of its own state machine. |
| `Iec104Values.UpdateQueues` | apps/iec104-outbound/iec104_outbound/server.py:335-392 | An update queues exactly one frame, at the point's address and showing the new value, if the session is registered and started and the value has changed; otherwise, and for an unknown key, none. |
| `Iec104Server.ClientSession.InterrogationRound` | apps/iec104-outbound/iec104_outbound/server.py:234-249 | One put of the interrogation task, blocking with the frame in hand while the queue is full, is the interrogation step of the state machine. |
| `Iec104Server.AnswerIsSteps` | apps/iec104-outbound/iec104_outbound/server.py:810-866 | The whole answer is what the single steps of the interrogation task add up to. |
| `Iec104Apci.ParseInvertsBuild` | apps/iec104-outbound/iec104_outbound/encoder.py:88-141 | Parsing inverts building for I, S and U frames, whatever bytes follow. |
| `Iec104Apci.BuildInvertsParse` | apps/iec104-outbound/iec104_outbound/encoder.py:88-141 | Building inverts parsing of an I-frame if and only if the ignored spare bit of the third control octet is clear. |
| `Iec104Values.IFrameOctets` | apps/iec104-outbound/iec104_outbound/encoder.py:120-141 | Where N(S) and N(R) stand in the octets of an I-frame. |
| `Iec104Values.ParseExactly` | apps/iec104-outbound/iec104_outbound/encoder.py:88-112 | Octet by octet, what a reader makes of any buffer that begins with a start octet: when it waits, when it gives up, which frame it takes and where that ends. |
| `Iec104Values.UFramesAnswered` | apps/iec104-outbound/iec104_outbound/server.py:548-561 | Octet by octet: STARTDT, STOPDT and TESTFR get their confirmations and switch the session on, off, or not at all; confirmations get no answer. |
| `Iec104Reassembly.Reassembles` | apps/iec104-outbound/iec104_outbound/server.py:470-488 | Frames separated by bytes other than 0x68, cut into chunks anywhere, are dispatched exactly as sent. |
| `Iec104Reassembly.CuttingsAgree` | apps/iec104-outbound/iec104_outbound/server.py:470-488 | Exactly the streams that every cutting leaves the same: those without a malformed unit, and those in which every start byte behind the first malformed unit begins another one. |
| `Iec104Reassembly.ChunkIndependence` | apps/iec104-outbound/iec104_outbound/server.py:470-488 | Cutting such a stream at will, with part of it in the buffer already, changes neither the frames dispatched nor the bytes left over. |
| `Iec104Reassembly.Reassembler.Feed` | apps/iec104-outbound/iec104_outbound/server.py:469-488 | The loop over the buffer dispatches the frames of the scan and keeps its rest. |
| `Iec104Command.ReplyMirrorsCommand` | apps/iec104-outbound/iec104_outbound/encoder.py:317-359 | A command reply parses to the same command; only cause and sign differ, as asked. |
| `Iec104Command.CommandComesIn` | apps/iec104-outbound/iec104_outbound/encoder.py:317-340 | A master's single command, octet by octet, comes in with its addresses, its select bit and its state. |
| `Iec104Command.OthersAreRefused` | apps/iec104-outbound/iec104_outbound/encoder.py:317-340 | Exactly which objects are taken for a single command. |
| `Iec104Registry.BuildPointRegistry` | apps/iec104-outbound/iec104_outbound/registry.py:188-360 | The per-model buckets give exactly the ordered, filtered product of active devices and eligible signals; a bad common address is refused. |
| `Iec104Registry.ActiveInOrder` | apps/iec104-outbound/iec104_outbound/registry.py:205-208 | The devices used are the active ones, none lost or repeated, in the text order of their codes, and in their own order within a code. |
| `Iec104Registry.PointsAreReported` | apps/iec104-outbound/iec104_outbound/registry.py:159-360 | From the fields of the catalogue: a point is in the registry exactly if an active device with a code and a switched-on signal of its model give its key, kind, address, common address and time stamp flag, with the fall-backs for addresses. |
| `Iec104Registry.CommandsAreObeyed` | apps/iec104-outbound/iec104_outbound/registry.py:240-360 | The same for commands: type 45 and the allowed name behind the key's first dot. |
| `Iec104Registry.RegistryIsDistinct` | apps/iec104-outbound/iec104_outbound/registry.py:130-143 | Common addresses distinct per device and object addresses distinct per model give distinct keys and addresses. |
| `Iec104Registry.ByAddress` | apps/iec104-outbound/iec104_outbound/registry.py:130-143 | The address index has an entry for every address, and exactly one per point when addresses are distinct. |
| `Iec104Registry.UnaddressedDevicesCollide` | apps/iec104-outbound/iec104_outbound/registry.py:175-186 | Two devices of one model without an address of their own always collide. |
| `Iec104Registry.CommandsAreAllowed` | apps/iec104-outbound/iec104_outbound/registry.py:258-266 | Every command carries an allowed slug, which is the one of its signal. |
| `AlarmEngine.BenignRunsAgree` | apps/alarm-service/alarm_service/main.py:642-775 | In every interleaving where no clear is dropped or fails, no raise fails while a later job for its key is under way, and no failed raise has been stored unconfirmed: replaying the jobs under way on the backend's open alarms gives exactly the active set, and raises and clears of each key alternate except across a rollback. |
| `AlarmEngine.UnconfirmedStaysOpen` | apps/alarm-service/alarm_service/main.py:708-760 | Why the third condition: a run in which the backend stores a raise without its id coming back; the engine rolls back, and when the condition is over nothing is under way or sent to close the alarm, which stays open. |
| `AlarmEngine.NotifierSimulates` | apps/alarm-service/alarm_service/main.py:642-775 | The same agreement under the weakest condition on each step. |
| `AlarmEngine.FinishKeepsAgreement` | apps/alarm-service/alarm_service/main.py:708-775 | The side condition is exact: the end of a job keeps the agreement on its key if and only if it is harmless. |
| `AlarmEngine.SubmitKeepsAgreement` | apps/alarm-service/alarm_service/main.py:642-695 | A job dropped at a full queue keeps the agreement if its key is not open by then, and otherwise breaks it. |
| `AlarmEngine.BenignIsHarmless` | apps/alarm-service/alarm_service/main.py:642-775 | The documented condition implies the exact one. |
| `AlarmDebounce.RaisesAreDebounced` | apps/alarm-service/alarm_service/main.py:918-1006 | In every run every decision to raise, raced or not, is backed by its mark: some evaluation at the mark's time was true and none since was false. So it is debounced if the mark is at least `debounce` old; on a younger mark it is made only if a rollback of the key fell between mark and decision. |
| `AlarmDebounce.DebouncedExactly` | apps/alarm-service/alarm_service/main.py:918-1006 | Exactly which raises are debounced, for a clock that does not run backwards: those whose streak of true evaluations is old enough; and, if no rollback took a mark of the streak before, those whose mark is, so that a raise on a younger mark is never debounced. |
| `AlarmDebounce.RaiseDecision` | apps/alarm-service/alarm_service/main.py:940-945 | In every run, a marked key is raised if and only if its mark is old enough or a rollback of the key has come since the mark was made. |
| `AlarmDebounce.RollbackSkipsDebounce` | apps/alarm-service/alarm_service/main.py:119-146 | The exception is real: a run in which a rollback between marking and reading the mark raises an alarm on its first due reading, and the raise is not debounced. |
| `AlarmDebounce.OlderReadingBacks` | apps/alarm-service/alarm_service/main.py:119-146 | Why the exact condition looks at earlier rollbacks: a run in which a raise on a young mark is debounced all the same, by a reading whose mark a rollback took. |
| `AlarmService.Service.ProcessRule` | apps/alarm-service/alarm_service/main.py:940-1006 | One evaluated rule is one uninterrupted turn of the engine: same active set, pending marks and queue. |
| `AlarmService.Service.ProcessReading` | apps/alarm-service/alarm_service/main.py:876-1006 | A reading updates the caches first, stores a sample only for aggregated signals, then gives every rule in scope its turn, in order. |
| `AlarmService.BackendNotifier.SubmitRaise` | apps/alarm-service/alarm_service/main.py:642-667 | A full queue rolls the engine's state back at once; otherwise the job is last in the queue. |
| `AlarmService.BackendNotifier.SubmitClear` | apps/alarm-service/alarm_service/main.py:669-695 | A clear that finds the queue full is only counted. |
| `AlarmService.BackendNotifier.End` | apps/alarm-service/alarm_service/main.py:708-775 | Without an alarm id a raise is counted as lost and rolled back; a failed clear changes nothing here. |
| `AlarmService.TurnIsRun` | apps/alarm-service/alarm_service/main.py:940-1006 | A turn is a run of the interleaved engine, so all its theorems apply. |
| `AlarmReadings.AlarmFollowsReadings` | apps/alarm-service/alarm_service/main.py:917-1006 | The whole loop over the rules, reading after reading, with room in the notifier's queue and no rollback of the key: a simple rule without debounce is active exactly when some reading went beyond the threshold and none since has come back by more than the hysteresis; with the other comparators, by the last reading alone. |
| `AlarmReadings.TurnsOn` | apps/alarm-service/alarm_service/main.py:917-1006 | The turns of all rules of a reading change the alarm of a rule in the list by that rule's verdict on the state before, log one evaluation with it, and leave the alarm of any other rule alone. |
| `AlarmReadings.CompositeFollowsTerms` | apps/alarm-service/alarm_service/main.py:921-936 | A composite rule without debounce is untouched while a term has no value, and otherwise active exactly when all of its terms hold, or some, as it says. |
| `AlarmReadings.TermSeesFreshValue` | apps/alarm-service/alarm_service/rules.py:707-767 | A term sees the last reading of its signal, of its own device or for `*` of the one that reported, if it is no more than ten minutes old. |
| `AlarmReadings.TermSeesSamples` | apps/alarm-service/alarm_service/main.py:284-317 | An aggregate term sees, of all samples its signal ever had from its device, those of its window, the last 5000 of them. |
| `AlarmReadings.TermSeesFormula` | apps/alarm-service/alarm_service/rules.py:707-767 | A formula term sees the values its variables name, each of its own device or of the one that reported, and has no value if one of them is missing. |
| `AlarmReadings.ShownToExactly` | apps/alarm-service/alarm_service/rules.py:202-383 | From the backend's own fields: a reading is shown to exactly the rules that are active, not the communication rule, know all their signals, mention the signal, and let device and model in. |
| `AlarmReadings.ShownInOrder` | apps/alarm-service/alarm_service/rules.py:202-383 | ... in the backend's order, none twice. |
| `AlarmReadings.CommRuleIsFirst` | apps/alarm-service/alarm_service/rules.py:250-257 | The rule for lost communication is the first one of the backend, switched on or not. |
| `AlarmRules.AlarmRuleCache.Refresh` | apps/alarm-service/alarm_service/rules.py:171-294 | The index, the aggregate keys, the longest window and the standing communication rule reflect the backend's rules. |
| `AlarmRules.IndexIsScan` | apps/alarm-service/alarm_service/rules.py:339-383 | The index answers exactly what a scan of the kept rules answers: those that mention the signal and cover device and model, in order, none twice. |
| `AlarmRules.AggregatesAreStored` | apps/alarm-service/alarm_service/rules.py:272-284 | Every signal an aggregate of a kept rule can look up is stored, over a window no longer than the store keeps. |
| `AlarmRules.AggregateNeeds` | apps/alarm-service/alarm_service/rules.py:266-284 | The walk over the index finds exactly the aggregated signals and the longest window. |
| `AlarmEvaluation.HysteresisClosedForm` | apps/alarm-service/alarm_service/rules.py:400-430 | Folding a one-sided rule over any readings gives the closed form: beyond the threshold once, within reach since. |
| `AlarmEvaluation.ClosedFormIff` | apps/alarm-service/alarm_service/rules.py:400-430 | The closed form is right for every series if and only if the hysteresis is not negative. |
| `AlarmEvaluation.BandIsNeutral` | apps/alarm-service/alarm_service/rules.py:400-430 | A reading inside the band never changes the state. |
| `AlarmEvaluation.LowerIsMirror` | apps/alarm-service/alarm_service/rules.py:423-430 | `lt` and `lte` are the mirror images of `gt` and `gte`. |
| `AlarmEvaluation.ValidIsDefined` | apps/alarm-service/alarm_service/rules.py:588-704 | A formula accepted by the white list, without division and empty calls, always has a value. |
| `AlarmEvaluation.AcceptedStaysValid` | apps/alarm-service/alarm_service/rules.py:741-756 | The formula of an accepted rule passes the white list again on the names it finds. |
| `AlarmEvaluation.EvaluateComposite` | apps/alarm-service/alarm_service/rules.py:707-767 | Undecided exactly while some data is missing; otherwise the conjunction or disjunction of all terms. |
| `AlarmEvaluation.CompareMeans` | apps/alarm-service/alarm_service/rules.py:400-430 | What each comparator holds for, at its ends too. |
| `AlarmEvaluation.OperatorsMean` | apps/alarm-service/alarm_service/rules.py:640-690 | The operators by what their results satisfy: differences and quotients by their inverses, floor division and remainder by the sign of the divisor; division by zero has no value. |
| `AlarmEvaluation.PartsMean` | apps/alarm-service/alarm_service/rules.py:631-688 | Numbers, names, signs and operators stand for their values; what is missing or not admitted makes the whole formula undefined. |
| `AlarmEvaluation.CallsMean` | apps/alarm-service/alarm_service/rules.py:690-704 | min, max and abs of their arguments. |
| `AlarmSamples.LookUpRefinesHistory` | apps/alarm-service/alarm_service/main.py:242-317 | A lookup equals the aggregate of the full history restricted to the window (its last 5000 samples), despite length cap, pruning and cleanup. |
| `AlarmSamples.RulesSeeFullHistory` | apps/alarm-service/alarm_service/main.py:242-317 | With a fixed rule set this holds for every aggregate a kept rule can ask for, although only aggregated signals are stored. |
| `AlarmSamples.AggregateMeans` | apps/alarm-service/alarm_service/main.py:303-317 | Least and greatest sample, and the number of samples above or below the bound; no value exactly of no samples. |
| `AlarmSamples.TotalMeans` | apps/alarm-service/alarm_service/main.py:303-317 | Sum and mean, by running totals. |
| `AlarmSamples.WindowMeans` | apps/alarm-service/alarm_service/main.py:295-301 | The samples of a window are those not older than its cutoff, each as often as taken. |
| `AlarmSamples.StoreSimulatesHistory` | apps/alarm-service/alarm_service/main.py:256-282 | What the store has lost is older than any window the rules asked for, or not among the last 5000. |
| `AlarmSamples.StoreIsBounded` | apps/alarm-service/alarm_service/main.py:256-282 | In every run no buffer holds more than 5000 samples, and none is kept that has been silent for a day and ten minutes. |
| `AlarmSamples.SamplesCache.Add` | apps/alarm-service/alarm_service/main.py:256-282 | Append with cap, prune by age, periodic cleanup: the new store is the specified one. |
| `AlarmSamples.SamplesCache.Find` | apps/alarm-service/alarm_service/main.py:284-317 | The filtered scan computes the specified lookup. |
| `ModbusCodec.FixedPointBound` | apps/modbus-outbound/modbus_outbound/codec.py:31-57 | In range, decoding the encoded value is within half a step of it. |
| `ModbusCodec.FixedPointSaturates` | apps/modbus-outbound/modbus_outbound/codec.py:31-57 | Out of range, decoding gives the nearer end. |
| `ModbusCodec.FixedPointMonotone` | apps/modbus-outbound/modbus_outbound/codec.py:31-57 | For positive scale a larger value never reads smaller. |
| `ModbusCodec.FixedPointExact` | apps/modbus-outbound/modbus_outbound/codec.py:31-57 | What the reader can express comes back exactly. |
| `ModbusCodec.RoundMeans` | apps/modbus-outbound/modbus_outbound/codec.py:31-42 | Rounding goes to the nearest integer, and of two to the even one. |
| `ModbusCodec.CounterReads` | apps/modbus-outbound/modbus_outbound/codec.py:67-75 | A counter reads as itself below 2^32, as its remainder above, as zero when negative, in either word order. |
| `ModbusRegistry.NewestWins` | apps/modbus-outbound/modbus_outbound/registry.py:246-309 | After a snapshot each pair has the newest of its value and its rows, the first among equals; a value is never replaced by one that is not newer. |
| `ModbusRegistry.RowDecides` | apps/modbus-outbound/modbus_outbound/registry.py:246-309 | From the row's own fields: what one row of a snapshot changes, and that it changes nothing else. |
| `ModbusRegistry.SnapshotTwice` | apps/modbus-outbound/modbus_outbound/registry.py:246-309 | Applying a snapshot twice is applying it once, for any rows. |
| `ModbusRegistry.SlicingIsInvisible` | apps/modbus-outbound/modbus_outbound/catalog.py:332-349 | Registers and summed counters do not depend on the slicing. |
| `ModbusRegistry.CountersAreTrue` | apps/modbus-outbound/modbus_outbound/registry.py:246-309 | Seeded and refreshed rows are as many as readings were accepted, seeded ones as many as pairs that had no value before. |
| `ModbusRegistry.RunMirrors` | apps/modbus-outbound/modbus_outbound/registry.py:182-309 | With disjoint placements, after any interleaving of updates and snapshots every cell holds the encoding of the last accepted reading of its placement. |
| `ModbusRegistry.CutMeans` | apps/modbus-outbound/modbus_outbound/registry.py:205-217 | A placement stores the first registers of the encoding, cut as its length says, negative lengths included. |
| `ModbusRegistry.LiveMayGoBack` | apps/modbus-outbound/modbus_outbound/registry.py:219-244 | A live update moves a stamp back exactly when it is stored and older. |
| `ModbusRegistry.SnapshotStampsGrow` | apps/modbus-outbound/modbus_outbound/registry.py:246-309 | A snapshot never does. |
| `ModbusServer.RegistersReadBack` | apps/modbus-outbound/modbus_outbound/server.py:78-120 | Read-back: a register read returns for each cell the word of its placement's last accepted reading, and elsewhere what was there at first. |
| `ModbusServer.BitsReadBack` | apps/modbus-outbound/modbus_outbound/server.py:78-120 | The same for coils and discrete inputs. |
| `ModbusMaster.CounterComesBack` | apps/modbus-outbound/modbus_outbound/codec.py:67-75 | End to end in octets, after any interleaving of updates and snapshots: the two registers of a counter, put together in either word order, are the whole part of its last reading modulo 2^32, and zero below zero. |
| `ModbusMaster.FloatComesBack` | apps/modbus-outbound/modbus_outbound/codec.py:60-64 | The same for the single-precision pattern of a float placement. |
| `ModbusMaster.FixedPointComesBack` | apps/modbus-outbound/modbus_outbound/codec.py:31-57 | The register of a fixed-point placement, read as a signed number in steps of the scale, is its last reading to half a step if that is in range. |
| `ModbusMaster.BitComesBack` | apps/modbus-outbound/modbus_outbound/server.py:65-120 | A coil or discrete input reads, in its place among the octets, as the bit of its last reading. |
| `ModbusServer.HandlePdu` | apps/modbus-outbound/modbus_outbound/server.py:78-120 | Total on every byte string; the reply has 2 to 252 bytes. |
| `ModbusMaster.AnswersExactly` | apps/modbus-outbound/modbus_outbound/server.py:78-120 | The answer to any octets: a two-octet refusal with the first thing wrong - function, length or quantity, address, unit - or exactly as many data octets as were asked for. |
| `ModbusServer.HoldingIsInput` | apps/modbus-outbound/modbus_outbound/server.py:78-120 | FC3 and FC4 give identical answers, errors included. |
| `ModbusServer.BitReadReturns` | apps/modbus-outbound/modbus_outbound/server.py:65-120 | A bit read unpacks to exactly the requested bits, zero padded, in ceil(count/8) bytes. |
| `ModbusServer.RegisterReadReturns` | apps/modbus-outbound/modbus_outbound/server.py:114-120 | A register read returns exactly the requested words. |
| `ModbusServer.BitsToBytes` | apps/modbus-outbound/modbus_outbound/server.py:65-71 | The loop over the byte array packs the bits as specified. |
| `ModbusServer.PackedBits` | apps/modbus-outbound/modbus_outbound/server.py:65-71 | Packed bits unpack, and the padding is zero. |
| `ModbusServer.RedeployRefreshes` | apps/modbus-outbound/modbus_outbound/server.py:355-374 | After a redeployment one full snapshot gives every offered pair its newest row at its new addresses, whatever was carried over. |
| `ModbusServer.ReadsSurvive` | apps/modbus-outbound/modbus_outbound/server.py:355-374 | A redeployment is not seen by a reader of a unit that both plans have: any request gets the same answer before and after. |
| `ModbusSync.IdleRequestIsFull` | apps/modbus-outbound/modbus_outbound/catalog.py:318-327 | A refresh requested with no fetch under way is full, whatever requests and idle ticks come before it. |
| `ModbusSync.BusyRequestIsServed` | apps/modbus-outbound/modbus_outbound/catalog.py:351-372 | A refresh requested while a fetch is under way: everything is fetched by that fetch or the next one, if and only if not a partial fetch ends successfully with a stamp before the last of its period. |
| `ModbusSync.RequestIsLost` | apps/modbus-outbound/modbus_outbound/catalog.py:351-372 | Such a request is lost: a run from the start in which a plan change during the second fetch leaves the third fetch partial. |
| `ModbusSync.FullRecurs` | apps/modbus-outbound/modbus_outbound/catalog.py:357-372 | In every run fewer than twenty successful fetches in a row are partial, so a lost request is made good within a period. |
| `ModbusSync.AsksSinceNewest` | apps/modbus-outbound/modbus_outbound/catalog.py:318-372 | What the next fetch asks for: everything at every twentieth, otherwise what has changed since the stamp of the last answer; after a failure the same again. |
| `ModbusSync.Syncer.EndTick` | apps/modbus-outbound/modbus_outbound/catalog.py:359-372 | From the fetch to the rows a tick is the step of that state machine. |
| `ModbusStore.PointRegistry.WriteLocked` | apps/modbus-outbound/modbus_outbound/registry.py:182-217 | The loop over the placements writes what the specification writes and counts what it counts. |
| `ModbusStore.PointRegistry.Update` | apps/modbus-outbound/modbus_outbound/registry.py:219-244 | A live reading is always taken; counters and stamp follow. |
| `ModbusStore.PointRegistry.ApplySnapshot` | apps/modbus-outbound/modbus_outbound/registry.py:246-309 | The loop over the rows is the specified merge, with its counters. |
| `ModbusStore.PointRegistry.Read` | apps/modbus-outbound/modbus_outbound/registry.py:312-324 | Reading the dictionaries gives the specified words, zero where nothing is stored. |
| `ModbusManager.Manager.ApplySnapshot` | apps/modbus-outbound/modbus_outbound/server.py:337-352 | Every target takes the rows against its own plan and stamps; the totals are the sums. |
| `ModbusManager.Manager.ApplyInSlices` | apps/modbus-outbound/modbus_outbound/catalog.py:332-349 | Slices of 2000 over all targets, undisturbed, leave the same registers and totals as one piece. |
| `ModbusRegistry.LastUpdateCuts` | apps/modbus-outbound/modbus_outbound/catalog.py:332-349 | With live updates between the slices: a pair ends with the newest of its last update and of the rows in the slices behind it, the first among equals, whatever came before and whatever other pairs did. |
| `ModbusManager.CarryOver` | apps/modbus-outbound/modbus_outbound/server.py:355-374 | Values go to the same unit and address of the new registry; units the new plan lacks are skipped. |
| `ModbusManager.BuildRegistry` | apps/modbus-outbound/modbus_outbound/registry.py:327-356 | The registry holds the plan: parsed points with an address in range, and every device's unit. |
| `ModbusManager.PlannedPlaces` | apps/modbus-outbound/modbus_outbound/registry.py:150-172 | The placements of a pair are exactly its parsed points in range, in plan order, and their units answer. |
| `WifiGuard.ReportLeavesWayIn` | infra/appliance/e1-netd.py:1582-1596 | Whatever state a report finds, with working hardware it leaves a way in, a guard that has not run out, or a client in its grace; only behind a guard file that does not parse it leaves the radio as it finds it. |
| `WifiGuard.UnreadableGuardStops` | infra/appliance/e1-netd.py:1233-1245 | Behind such a file every further report, whatever it finds, leaves guard, role and link alone: enforcement stops until a request replaces the file. |
| `WifiGuard.RequestLeavesWayIn` | infra/appliance/e1-netd.py:1795-2154 | With working hardware, after any request - mode, connect, forget, radio, scan - there is a way in or a guard, or a cable if the radio was switched off; or the request changed nothing. |
| `WifiGuard.RoleFollowsRequest` | infra/appliance/e1-netd.py:1988-2154 | A carried-out role request ends in that role if the connection it needs can be made and in the other one if not, with the records of offline time and attempts cleared; a connection that is made means client; forgetting means access point; everything else leaves the role alone. |
| `WifiGuard.LinkFollowsRequest` | infra/appliance/e1-netd.py:1934-2154 | With commands that work the radio carries what was asked for, or the access point again. |
| `WifiGuard.SwitchEndsRetries` | infra/appliance/e1-netd.py:1105-1170 | After a switch to access-point mode no report starts a retry, in any run, until a request for a role or a network comes. |
| `WifiGuard.RadioFollowsRequest` | infra/appliance/e1-netd.py:2003-2067 | The radio is switched off only with a cable and on only if nothing holds it off; then the wait for a rescue begins anew; guard and role stay. |
| `WifiGuard.ReportSparesLink` | infra/appliance/e1-netd.py:1065-1271 | Whom a report may cut off: nobody who is online, no access point with clients, no network within its grace; only what a guard that has run out was watching, or what is no way in. |
| `WifiGuard.RecordFollowsLink` | infra/appliance/e1-netd.py:1105-1170 | The record of client mode: cleared by a client that is online, begun when none is found, marked as a fallback when the access point takes over. |
| `WifiGuard.RecoveryBound` | infra/appliance/e1-netd.py:1065-1170 | From any state, while no client comes online: after every report either all reports so far came before the deadline of the guard armed at first (or that guard cannot be read), or the access point is up, except, in client mode, within the guard period of a retry that connected and within the grace, which counts from the recorded time or else from the first report at or after the guard's deadline. |
| `WifiGuard.DeadlineOpensAp` | infra/appliance/e1-netd.py:1233-1271 | The first report at or after the guard's deadline opens the access point, removes the guard and begins the grace; only a retry that is due at once, on an offline time recorded longer than the grace ago, can come in its place. |
| `WifiGuard.RecoveredByThen` | infra/appliance/e1-netd.py:1124-1143 | With or without a guard at first: CLIENT_GRACE_SEC after a report that does not wait for the guard the access point is up, but for the guard period of a retry; in access-point mode from that report on. |
| `WifiGuard.ApModeIsImmediate` | infra/appliance/e1-netd.py:1105-1115 | In access-point mode without a running guard it is up after the next report. |
| `WifiGuard.RetriesAreSpaced` | infra/appliance/e1-netd.py:1145-1154 | In every run, whatever the links, the hardware, the clock and the requests: two retries start at least CLIENT_RETRY_SEC apart, unless between them a report that enforced client mode found a client online or a request that was carried out changed the role. |
| `WifiGuard.BriefLinkForgets` | infra/appliance/e1-netd.py:1118-1123 | That exception is real: a run with two retries 210 seconds apart and one brief link between them. |
| `WifiGuard.RescueBound` | infra/appliance/e1-netd.py:1017-1062 | A switched-off radio of an unreachable device is on again by the first report RADIO_RESCUE_SEC after the first that found it so, and not before. |
| `WifiGuard.RescuedExactly` | infra/appliance/e1-netd.py:1017-1062 | Exactly when a report switches a radio on. |
| `WifiGuard.RadioComesBack` | infra/appliance/e1-netd.py:1017-1062 | The same from any record of an earlier time: on again by then, and it stays on. |
| `WifiGuard.RescueOpensWayIn` | infra/appliance/e1-netd.py:1582-1596 | The same report that rescues the radio opens the way in, or starts a bounded wait. |
| `WifiCommands.GuardComesFirst` | infra/appliance/e1-netd.py:1853-2154 | A guard is on disk before every single command of any report or request that takes the access point down, exactly but for three: the undo of a failed switch to access-point mode that takes the client up, a deep scan, and switching the radio off, which asks for a cable. |
| `WifiCommands.CrashRecovers` | infra/appliance/e1-netd.py:1942-1946 | If the daemon dies between any two commands of a report or a request, scans included: the access point is up again at the latest the grace period after the first report, or, with a guard, after the first report past the guard period, but for retries; and at that very report if the guard had been armed with no offline time recorded. A radio that is off then was being switched off, and a cable leads to the device. |
| `WifiCommands.CrashInSwitchOff` | infra/appliance/e1-netd.py:2003-2067 | In that case: once no interface has an address, the radio is on again by the first report RADIO_RESCUE_SEC after the first that found it so. |
| `WifiCommands.SwitchKeepsWayIn` | infra/appliance/e1-netd.py:2095-2122 | A switch to access-point mode keeps a way in that is there reachable after each of its commands, as long as the access point can be raised or the client taken up again. |
| `WifiDaemon.Netd.Maintain` | infra/appliance/e1-netd.py:1582-1596 | Guard check, rescue and role enforcement leave exactly the listed states, one after each command, and end in the report transition. |
| `WifiDaemon.Netd.HandleMode` | infra/appliance/e1-netd.py:2070-2154 | So does a role request, with its undo on failure. |
| `WifiDaemon.Netd.HandleConnect` | infra/appliance/e1-netd.py:1934-1955 | So does a request to connect: the old profile goes, the guard is armed, then the connection is tried. |
| `Firewall.ConfigDecides` | infra/appliance/e1-fwd.py:451-477 | For every validated configuration and packet: both input chains, and the forwards, decide as the configuration says. |
| `FirewallRequests.RequestDecides` | infra/appliance/e1-fwd.py:320-568 | From the request to the verdict: for every accepted configuration and packet, both input chains and the chain before the containers decide by what is built in, by number, and by the first requested rule whose protocol, two port numbers and leading address bits the packet has; over IPv6 without the requested rules that name a source. |
| `FirewallRequests.RequestEnforced` | infra/appliance/e1-fwd.py:451-477 | ... and so does the installed table for packets that nothing in front of the hook has decided. |
| `FirewallRequests.RequestEnforced6` | infra/appliance/e1-fwd.py:546-568 | ... and the IPv6 table, without the requested rules that name a source. |
| `FirewallRequests.DockerEnforced` | infra/appliance/e1-fwd.py:480-521 | ... and the table before the containers, for new traffic that is translated to them. |
| `FirewallRequests.ForwardEnforced` | infra/appliance/e1-fwd.py:524-543 | In the installed table a packet to a requested forward's port is sent on to the requested destination and port. |
| `FirewallRequests.OthersGoOn` | infra/appliance/e1-fwd.py:524-543 | A packet to no requested forward's port goes on as if there were no translation. |
| `FirewallRequests.MasqueradeEnforced` | infra/appliance/e1-fwd.py:524-543 | In the installed table the device stands in for the client exactly towards requested destinations. |
| `FirewallRequests.AcceptedExactly` | infra/appliance/e1-fwd.py:320-365 | Exactly which rules are accepted. |
| `FirewallRequests.ForwardAsAsked` | infra/appliance/e1-fwd.py:368-405 | Exactly which forwards are accepted, and that they are what was asked for. |
| `FirewallRequests.ConfigAccepted` | infra/appliance/e1-fwd.py:408-442 | Exactly which configurations are accepted, and that they are switched on as asked. |
| `FirewallRequests.ForwardGoesWhereAsked` | infra/appliance/e1-fwd.py:524-543 | A packet to a requested forward's port goes on to the requested destination and port. |
| `FirewallRequests.MasqueradeDecides` | infra/appliance/e1-fwd.py:524-543 | The device stands in for the client exactly towards the destinations of forwards. |
| `Firewall.Input4Decides` | infra/appliance/e1-fwd.py:451-477 | First match in E1-FW-IN passes a packet exactly if it is built-in traffic, a guard port, or its first matching rule is allow. |
| `Firewall.Input6Decides` | infra/appliance/e1-fwd.py:546-568 | The IPv6 chain gives the verdict of the list without its sourced rules, apart from its own service port. |
| `Firewall.FamiliesAgree` | infra/appliance/e1-fwd.py:546-568 | Without sources and service ports both families give the same verdict. |
| `Firewall.GuardsStayOpen` | infra/appliance/e1-fwd.py:451-477 | No rule list closes a guard port. |
| `Firewall.DockerDecides` | infra/appliance/e1-fwd.py:480-521 | The chain before the containers, case by case: container traffic, replies, untranslated traffic, forwards, web ports, first rule, drop. |
| `Firewall.ForwardsGoThrough` | infra/appliance/e1-fwd.py:524-543 | A forward works whatever the rules say: its packets are translated to its destination and then accepted. |
| `Firewall.ReservedNotDiverted` | infra/appliance/e1-fwd.py:382-387 | No forward of a validated list diverts a reserved port. |
| `FirewallConfig.PortsRoundTrip` | infra/appliance/e1-fwd.py:320-365 | Written down and parsed again, validated ports are the same. |
| `FirewallTexts.RangeMeans` | infra/appliance/e1-fwd.py:320-331 | Character by character: the texts that are read as a range are one number, or two around the first separator. |
| `FirewallTexts.IntegerMeans` | infra/appliance/e1-fwd.py:320-331 | ... and those read as a number are blanks, a sign or none, groups of digits with single underscores, blanks. |
| `FirewallTexts.CommentMeans` | infra/appliance/e1-fwd.py:312-317 | What is kept of a comment: the printable characters between blanks, the first eighty. |
| `FirewallTexts.KeptMeans` | infra/appliance/e1-fwd.py:312-317 | The printable characters are all kept, in their order. |
| `FirewallConfig.ColonsKeepRange` | infra/appliance/e1-fwd.py:446-448 | Rewritten for the packet filter they are still the same range. |
| `FirewallConfig.CleanTwice` | infra/appliance/e1-fwd.py:312-317 | Cleaning a cleaned comment changes nothing, exactly unless it was cut right after a blank. |
| `FirewallConfig.CleanThrice` | infra/appliance/e1-fwd.py:312-317 | Cleaned twice it is stable. |
| `FirewallConfig.ConfigTwice` | infra/appliance/e1-fwd.py:408-442 | A stored configuration validated again comes back unchanged exactly when no comment was cut right after a blank. |
| `FirewallConfig.CheckListens` | infra/appliance/e1-fwd.py:433-441 | The scan with a set of seen pairs accepts exactly the lists without a repeated listening port. |
| `FirewallTables.ApplyRuleset` | infra/appliance/e1-fwd.py:571-596 | Whatever the tables held: an enabled configuration leaves exactly its compiled chains, each called from its parent - in front, if it was not called already - and every other entry as it was; a disabled one empties the firewall's own chains and nothing else, in both families; without ip6tables the IPv6 tables, and without iptables all tables, are left alone. |
| `FirewallWalk.InputEnforced` | infra/appliance/e1-fwd.py:265-269 | The way of a packet through an installed INPUT, with jumps and returns, whatever else the tables hold: if no entry in front of the hook has decided, it is dropped exactly if the validated configuration does not let it in, and goes on behind the hook otherwise; and an entry can stand in front only of a hook that was there already. |
| `FirewallWalk.HookDecides` | infra/appliance/e1-fwd.py:265-269 | For any chain without jumps: exactly what is decided in front of its hook escapes it, and what it returns goes on behind. |
| `FirewallTables.Tables.BuildInputV4` | infra/appliance/e1-fwd.py:451-477 | Entry by entry the chain is exactly the compiled one; no other chain changes but for one call. |
| `FirewallTables.Tables.BuildDockerV4` | infra/appliance/e1-fwd.py:480-521 | The same for the chain before the containers; the container engine's own chain is made and called if it is missing, and keeps its entries. |
| `FirewallTables.Tables.BuildNatV4` | infra/appliance/e1-fwd.py:524-543 | The same for translation and its return path. |

## Left out

- IEC 104 timestamps (CP56Time2a), float32 bit patterns and values that cannot be encoded: a reading is a kind, a number and a quality.
- Iec104Wire.FailedSendIsLast: an I-frame whose send fails is taken not to reach the master; a failing reply of the reader ends the session like a hang-up.
- IEC 104 keep-alive (`test_pending`), peer lists and session limits, logging rate limits.
- IEC 104 command execution: a command's reply is a direct send of an opaque frame; the backend call, select and execute are not modelled.
- Iec104Server.Server.HandleInterrogation: requires room for the whole answer; a put that blocks is `InterrogationRound`, and the take that frees the slot lets it in.
- Iec104Wire.CanDrain: shows that a draining schedule exists; that the event loop is fair is not part of the model.
- Iec104Wire.WireReassembles: the encoding of the application data is any function into at most 249 bytes.
- Sockets, NATS, RabbitMQ, HTTP, threads, files and subprocesses: their results are parameters or steps.
- AlarmEngine: a device's communication alarm is a key without a rule, evaluated without debounce; how its payload is built is left out.
- AlarmEngine: the end of a process and the `None` job that stops the worker.
- AlarmSamples.LookUpRefinesHistory: for a clock that does not run backwards and rules that never asked for less than five sixths of the window; after a rule with a longer window arrives, what was pruned before is gone.
- AlarmReadings.AlarmFollowsReadings: says nothing of runs with a full notifier queue or a rollback of the key.
- AlarmRules.AlarmRuleCache.Refresh: the backend's rows are taken as parsed; the map from devices to models is a parameter.
- AlarmEvaluation: the power operator of formulas, NaN and infinity.
- AlarmRules: parsing of the expression from JSON; an expression is taken as parsed, with its window clamped to 1 to 86400.
- ModbusRegistry.NewestWins: for rows of the pair that carry a timestamp; rows without one only fill an empty pair, as `ApplyRow` says.
- ModbusCodec: float32 is an opaque 32-bit pattern carried with the number; NaN and infinity are left out; a scale of 0 is read with the scale 1 it is written with.
- ModbusRegistry: timestamps are integers, already parsed; a row carries the clock of the moment it is looked at.
- ModbusManager.Manager.ApplyInSlices: no live update between two slices; with updates, `ModbusRegistry.LastUpdateCuts` and `ModbusRegistry.RunMirrors` hold.
- Modbus MBAP framing, deployment of listeners, the plan synchroniser, and what the snapshot synchroniser counts and reports.
- WifiGuard: `supported` and the interface NetworkManager sees are one flag; what a scan finds and the store of known networks are left out; forgetting a network that is not the current one changes nothing modelled.
- WifiGuard.RecoveryBound: the guard period of a retry counts from when its guard is armed.
- WifiGuard.RequestLeavesWayIn: a radio request whose outcome is not confirmed is taken to have changed nothing.
- WifiCommands.CrashRecovers: each write and each command of the network manager is one step; autoconnect flags, which a role change also sets, are left out.
- WifiGuard: the constants are the defaults, not their environment overrides.
- FirewallConfig: action and protocol words and network text are taken as read; digits are ASCII; which characters are printable is a parameter.
- FirewallTables.ApplyRuleset: every command succeeds; a build that fails part-way, the fingerprint and `_measure` are left out.
- Smaller siblings and plumbing: `e1-rad.py`, `e1-gwd.py`, ftp-server, tag-engine, WhatsApp gateway, watchdogs, redaction, backend API, front end.
