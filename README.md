# MME scenario player: the rx replay step

This project models, in Dafny, how the MME scenario player of OpenAirInterface
consumes a received ITTI message while a scenario is playing. The two handlers
`mme_scenario_player_handle_nas_downlink_data_req` and
`mme_scenario_player_handle_mme_app_connection_establishment_cnf` share one body.
Each takes the item after the scenario's `last_played_item` and checks that it is
an unprocessed rx message item of the handler's kind. It then stamps the item
with the elapsed time and loads the item's bound variables from the message,
notifying each variable's listeners. It reloads the expected message if asked,
compares it with the received one, and then updates the scenario status,
`last_played_item` and the item's `is_processed` flag.

Layout:

- `scenario_items.dfy` (module `ScenarioItems`): the items, the status, and the
  reference invariant a loaded script satisfies (`WellFormed`).
- `variables.dfy` (module `Variables`): the loop over `vars_to_load` and the
  listener notification, as functions on the item sequence, with their lemmas.
- `rx_step.dfy` (module `RxStep`): one handler call as the function `Step`,
  generic over a `Handler` (message kind plus reload policy), and `Run` for a
  sequence of calls.
- `rx_itti.dfy` (module `RxItti`): the class `Scenario`. Its `items` array,
  `cursor` and `status` are updated in place by `HandleRx`, `MatchPending`,
  `LoadVars` (a loop), `NotifyListeners` (a loop) and `Settle`. Each method is
  proved to produce exactly the state `Step`, `MatchItem`, `Loaded`, `Marked`
  or `RxStep.Settle` describes.
  The module-level methods `HandleNasDownlinkDataReq` and
  `HandleConnectionEstablishmentCnf` are the two handlers.
- `rx_properties.dfy` (module `RxProperties`): what a call does in each case,
  and what any sequence of calls preserves.

The items of the linked list are addressed by position. `next_item` of the item at
position `i` is the item at `i + 1`, and `last_played_item` is `Some(i)` or
`None` for NULL. The two handlers are `Handler(NasDownlinkDataReq, OnDumpOrVars)`
and `Handler(MmeAppConnectionEstablishmentCnf, OnVarsOnly)`.

Points where the code behaves differently from what one might expect of a replay
engine. The model follows the code in each case:

- A NULL `last_played_item` discards the message. It does not mean "start at
  the first item" (`StepNullCursor`).
- A successor that is not a pending rx message item discards the message
  without failing the scenario (`StepNotPendingDiscards`).
- A kind mismatch fails the scenario but leaves `is_processed` false
  (`StepKindMismatch`).
- A failed reload fails the scenario, but the comparison still runs. A match
  then still moves the cursor and marks the item processed
  (`StepReloadResult`, `StepComparison`, `FailedScenarioStillAdvances`).
- This file never takes a scenario out of PLAY_FAILED (`RunKeepsPlayFailed`).
  It does keep matching messages against a failed scenario and advancing its
  cursor.

## Model

| member | source | states |
|---|---|---|
| `RxItti.HandleNasDownlinkDataReq` | SRC/TEST/SCENARIO_PLAYER/mme_scenario_player_rx_itti.c:67-134 | with no current scenario the message is discarded and nothing is modified (empty frame); otherwise the scenario's new items, cursor and status are those of `Step` for the NAS_DOWNLINK_DATA_REQ handler |
| `RxItti.HandleConnectionEstablishmentCnf` | SRC/TEST/SCENARIO_PLAYER/mme_scenario_player_rx_itti.c:136-203 | the same for MME_APP_CONNECTION_ESTABLISHMENT_CNF, whose reload depends only on `vars_to_load` |
| `RxItti.Scenario.HandleRx` | SRC/TEST/SCENARIO_PLAYER/mme_scenario_player_rx_itti.c:76-132 | the in-place update of items, `last_played_item` and status equals `Step` of the old state; the scenario invariant is kept |
| `RxItti.Scenario.MatchPending` | SRC/TEST/SCENARIO_PLAYER/mme_scenario_player_rx_itti.c:86-125 | stamping, variable loading, reload, comparison and the final updates on the matched item produce exactly the state `MatchItem` describes |
| `RxItti.Scenario.LoadVars` | SRC/TEST/SCENARIO_PLAYER/mme_scenario_player_rx_itti.c:92-104 | the `while (list_var_item)` loop leaves the items equal to `Loaded` of the old items: every binding is applied in list order |
| `RxItti.Scenario.NotifyListeners` | SRC/TEST/SCENARIO_PLAYER/mme_scenario_player_rx_itti.c:100-101 | notifying a variable's listeners leaves the items equal to `Marked` of the old items and the variable's listener list |
| `RxItti.Scenario.Settle` | SRC/TEST/SCENARIO_PLAYER/mme_scenario_player_rx_itti.c:106-125 | the reload, the comparison and the updates of status, `last_played_item` and `is_processed` produce exactly the state `RxStep.Settle` describes; the CNF handler's reload test uses the flag it records before the loop (line 161) |
| `Variables.Marked` | SRC/TEST/SCENARIO_PLAYER/mme_scenario_player_rx_itti.c:100-101 | notification keeps the number of items |
| `Variables.MarkedAt` | SRC/TEST/SCENARIO_PLAYER/mme_scenario_player_rx_itti.c:100-101 | after notification, an item is flagged `xml_dump2struct_needed` exactly when it is a message item among the listeners; every other item is unchanged |
| `Variables.MarkedEffects` | SRC/TEST/SCENARIO_PLAYER/mme_scenario_player_rx_itti.c:100-101 | notification only raises reload flags of message items: every item that is not a message item is unchanged, and a message item differs at most in `xml_dump2struct_needed`, which never goes from true to false |
| `Variables.Assigned` | SRC/TEST/SCENARIO_PLAYER/mme_scenario_player_rx_itti.c:95-97 | loading one variable sets its value to the getter's result on the message and `value_changed` to true, keeps its name and listeners, and leaves every other item unchanged |
| `Variables.LoadOne` | SRC/TEST/SCENARIO_PLAYER/mme_scenario_player_rx_itti.c:95-101 | one pass of the loop only changes variable values and `value_changed` flags and raises reload flags of message items; shapes, kinds, directions and `is_processed` stay |
| `Variables.Loaded` | SRC/TEST/SCENARIO_PLAYER/mme_scenario_player_rx_itti.c:93-104 | the whole loop has the same restricted effect on every item, and a reload flag once raised stays raised |
| `Variables.LoadedLastWins` | SRC/TEST/SCENARIO_PLAYER/mme_scenario_player_rx_itti.c:94-104 | a binding not overridden by a later one leaves its variable holding the getter's value on the message, with `value_changed` true and name and listeners kept |
| `Variables.LoadedOnlyWritesBoundVars` | SRC/TEST/SCENARIO_PLAYER/mme_scenario_player_rx_itti.c:94-104 | a variable no binding targets is not written |
| `Variables.LoadedMarksListeners` | SRC/TEST/SCENARIO_PLAYER/mme_scenario_player_rx_itti.c:100-101 | every message item listening to a bound variable ends up flagged for reloading |
| `Variables.LoadedOnlyMarksListeners` | SRC/TEST/SCENARIO_PLAYER/mme_scenario_player_rx_itti.c:100-101 | a message item listening to no bound variable is not touched by the loop |
| `RxStep.Step` | SRC/TEST/SCENARIO_PLAYER/mme_scenario_player_rx_itti.c:77-132 | a handler call keeps the number of items: the script is never extended or shortened |
| `RxStep.StepKeepsValid` | SRC/TEST/SCENARIO_PLAYER/mme_scenario_player_rx_itti.c:77-132 | a handler call keeps the script's references well formed and `last_played_item` on an item of the script |
| `RxStep.MatchItem` | SRC/TEST/SCENARIO_PLAYER/mme_scenario_player_rx_itti.c:86-125 | the matched branch keeps the number of items |
| `RxStep.MatchItemKeepsValid` | SRC/TEST/SCENARIO_PLAYER/mme_scenario_player_rx_itti.c:86-125 | the matched branch keeps the script's references well formed and moves the cursor only onto an item |
| `RxStep.Settle` | SRC/TEST/SCENARIO_PLAYER/mme_scenario_player_rx_itti.c:106-125 | reload, comparison and the final updates keep the number of items |
| `RxStep.SettleReloads` | SRC/TEST/SCENARIO_PLAYER/mme_scenario_player_rx_itti.c:106-125 | the reload happens exactly when the policy asks for it; it fails exactly when `msp_reload_message` reports an error, and then the status is PLAY_FAILED; on success the item holds and is compared with the returned message; otherwise the template stays |
| `RxStep.Stamp` | SRC/TEST/SCENARIO_PLAYER/mme_scenario_player_rx_itti.c:90 | recording `time_stamp` changes no item's shape or references |
| `RxStep.Run` | SRC/TEST/SCENARIO_PLAYER/mme_scenario_player_rx_itti.c:67-134 | any sequence of handler calls keeps the scenario well formed and the number of items fixed |
| `RxProperties.StepNullCursor` | SRC/TEST/SCENARIO_PLAYER/mme_scenario_player_rx_itti.c:77-83 | with `last_played_item` NULL the message is discarded and status, cursor and all items are unchanged |
| `RxProperties.LastCursorReadsNull` | SRC/TEST/SCENARIO_PLAYER/mme_scenario_player_rx_itti.c:78-85 | when the cursor is on the last item, the `next_item` the handler goes on to read is NULL |
| `RxProperties.StepLastItemDiscards` | SRC/TEST/SCENARIO_PLAYER/mme_scenario_player_rx_itti.c:78-85 | corrected behaviour: with no successor the message is discarded and nothing changes |
| `RxProperties.StepNotPendingDiscards` | SRC/TEST/SCENARIO_PLAYER/mme_scenario_player_rx_itti.c:130-132 | a successor that is not an ITTI message item, is a tx item or is already processed leaves status, cursor and every item unchanged |
| `RxProperties.StepKindMismatch` | SRC/TEST/SCENARIO_PLAYER/mme_scenario_player_rx_itti.c:126-129 | a pending rx successor of another kind sets PLAY_FAILED; the cursor and every item stay, the successor's `is_processed` stays false |
| `RxProperties.MatchedItems` | SRC/TEST/SCENARIO_PLAYER/mme_scenario_player_rx_itti.c:90-125 | after a match every item other than the matched one is as the variable loop left it; the matched item differs from it only in template and `is_processed` |
| `RxProperties.StepMatchedProcessesItem` | SRC/TEST/SCENARIO_PLAYER/mme_scenario_player_rx_itti.c:90-125 | on a kind match the item is processed afterwards whether the comparison succeeds or fails, carries the elapsed time, and no other item's `is_processed` changes |
| `RxProperties.StepComparison` | SRC/TEST/SCENARIO_PLAYER/mme_scenario_player_rx_itti.c:106-124 | a successful comparison moves the cursor to the successor and turns PAUSED into PLAYING, leaving other statuses unless the reload failed; a failed comparison sets PLAY_FAILED and leaves the cursor; a failed reload sets PLAY_FAILED |
| `RxProperties.StepReloadResult` | SRC/TEST/SCENARIO_PLAYER/mme_scenario_player_rx_itti.c:106-112 | on a match the reload reads the items as the variable loop left them: it fails exactly when `msp_reload_message` on them reports an error, which sets PLAY_FAILED (also lines 176-179), and a successful reload leaves the item holding the returned message |
| `RxProperties.StepReloadCondition` | SRC/TEST/SCENARIO_PLAYER/mme_scenario_player_rx_itti.c:106-112 | the NAS handler reloads iff `xml_dump2struct_needed` or `vars_to_load` is set on the item; the CNF handler (lines 161 and 174) iff `vars_to_load` is set |
| `RxProperties.StepLoadsVariable` | SRC/TEST/SCENARIO_PLAYER/mme_scenario_player_rx_itti.c:93-104 | on a match each bound variable gets its getter's value on the received message and `value_changed` true, the last binding of a variable deciding |
| `RxProperties.StepWritesOnlyBoundVars` | SRC/TEST/SCENARIO_PLAYER/mme_scenario_player_rx_itti.c:93-104 | on a match no variable outside `vars_to_load` is written |
| `RxProperties.StepNotifiesListeners` | SRC/TEST/SCENARIO_PLAYER/mme_scenario_player_rx_itti.c:100-101 | on a match every message item listening to a loaded variable is flagged for reloading |
| `RxProperties.StepOnlyMarksListeners` | SRC/TEST/SCENARIO_PLAYER/mme_scenario_player_rx_itti.c:100-101 | on a match a message item other than the matched one that listens to no loaded variable is left as it was |
| `RxProperties.StepMonotone` | SRC/TEST/SCENARIO_PLAYER/mme_scenario_player_rx_itti.c:115-125 | a call moves the cursor forward by at most one position, only onto the item it just processed; processed items stay processed and only the successor can become processed |
| `RxProperties.StepKeepsPlayFailed` | SRC/TEST/SCENARIO_PLAYER/mme_scenario_player_rx_itti.c:115-124 | a call never takes the scenario out of PLAY_FAILED |
| `RxProperties.RunMonotone` | SRC/TEST/SCENARIO_PLAYER/mme_scenario_player_rx_itti.c:120-125 | over any sequence of calls the cursor position never decreases and processed items stay processed |
| `RxProperties.RunKeepsPlayFailed` | SRC/TEST/SCENARIO_PLAYER/mme_scenario_player_rx_itti.c:115-124 | over any sequence of calls a failed scenario stays failed |
| `RxProperties.FailedScenarioStillAdvances` | SRC/TEST/SCENARIO_PLAYER/mme_scenario_player_rx_itti.c:108-125 | in a concrete scenario already in PLAY_FAILED, a matching message still advances the cursor and marks the item processed |

## Left out

- The scenario mutex (`pthread_mutex_lock`/`unlock` on `scenario->lock`): each handler call is one atomic step; concurrency is not modelled.
- Logging (`OAILOG_*`): no observable state. The `Outcome` a call returns names the log line it would write.
- `msp_get_elapsed_time_since_scenario_start`: a clock read. The elapsed time is a parameter written into `timeStamp`.
- `msp_reload_message`: XML re-parsing, not part of this model. `Env.reload` stands for it: on success the item's template becomes the returned message; on failure the template is left as it was.
- `itti_msg_comp_*`: per-protocol structural comparison, not part of this model. `Env.matches` is true when the comparator reports no difference.
- `value_getter_func`: each binding names its getter by a `GetterId`, and `Env.extract` gives the 64-bit value it reads from a message.
- `msp_var_notify_listeners`: its body is not part of this model. It is modelled as setting `xml_dump2struct_needed` on every message item among the variable's listeners; other listener items are not changed.
- `scenario_set_status`: its body is not part of this model; it is modelled as plain assignment, with no protection against leaving PLAY_FAILED.
- `g_msp_scenarios`: only whether `current_scenario` is NULL matters; it is the `current` parameter of the two handler methods.
- The contents of the 3GPP message structures: `Msg` is an uninterpreted payload.
- Item `uid`, variable names in log lines and `previous_item`: diagnostics and list plumbing only.
- Script loading: that every binding names a variable item and that every listener exists is established when a script is loaded; here it is the invariant `WellFormed`, required on entry and preserved by every call.
- `time_stamp` is a `struct timeval` in the source; here it is a natural number of elapsed time units.

## Findings

| source | as written | input that shows it | evidently intended | confidence | as-written member | corrected member |
|---|---|---|---|---|---|---|
| SRC/TEST/SCENARIO_PLAYER/mme_scenario_player_rx_itti.c:78-85 | `item = item->next_item` followed by `item->item_type` with no NULL check (the same at lines 147-154) | a message arriving while `last_played_item` is the last item of the script | discard the message as "No Pending RX message", as for a NULL cursor | high, not executed | `RxStep.NextItemAsWritten` with `RxProperties.LastCursorReadsNull` | `RxProperties.StepLastItemDiscards` |
