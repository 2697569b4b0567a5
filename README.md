# Hedgehog GUI: controller discovery and bookkeeping

This project models the logic of the Hedgehog desktop client (`hedgehog/gui/hedgehog_app.py`) that keeps track of robot controllers on the network:

- the **discovery actor** takes each snapshot of the discovery overlay's peers and builds the list of `(peer name, address)` endpoints that offer the `hedgehog_server` service. The list is sorted by address and published to the application. When the selected controller is no longer listed, the actor has the application disconnect it.
- the actor's **loop** re-requests the service every 3000 ms. Between requests it dispatches the events its poller reports. It stops once a `$TERM` command has unregistered every socket.
- the **controller list** keeps one item per published endpoint in a dictionary.
- the **application** selects one controller at a time and holds a client connection on it.
- an **IO control** computes the flag word it sends for its port from its type, pull and level options.

Modules, one file each:

- `StringOrder` (`string_order.dfy`): Python's `<` on `str`, the order `sorted` uses.
- `Endpoints` (`endpoints.dfy`): peers, the endpoint list and the disconnect decision.
- `Controllers` (`controllers.dfy`): `ControllerItem`, `ControllerList` and `HedgehogApp` as classes whose methods update their fields.
- `IoFlags` (`io_flags.dfy`): the IO control's flag table.
- `Discovery` (`discovery.dfy`): the loop, in two forms. The first is a pure step function over integer-millisecond clock readings and events. The second is the `DiscoveryActor` class, whose loop method is proved to compute exactly that function.
- `Optional` (`optional.dfy`): Python's `None`.

The code is narrower than a general description of such an actor would be. The model follows the code:

- the list is sorted by address alone;
- peers are filtered by service one by one while the list is built;
- the re-request interval is the constant 3000 ms;
- only a `$TERM` command ends the loop. A closed command pipe is not treated as a terminate.

Python's `sorted` keeps equal addresses in the order it iterates over the set, and the program does not fix that order. The model needs a definite list, so `Listing` breaks such ties by peer name: it is one of the lists Python's sort may return. The lemmas about the list claim only what Python guarantees: the list holds each advertised pair once, and it never decreases by address. `ListingDeterminedUpToEqualAddresses` shows that these facts fix the list up to the order of equal addresses. The methods and the functions of the `Discovery` module publish `Listing` itself, so their equalities with `Listing` hold for the model's tie order. `TwoPeersListedInAddressOrder` holds for any tie order, because its two addresses differ.

## Model

| member | source | states |
|---|---|---|
| Endpoints.SortedListing | hedgehog/gui/hedgehog_app.py:139-142 | `sorted(s, key=address)` of a set holds exactly the set's elements, once each, and its length is the set's size. It is non-decreasing by address in Python's string order. |
| Endpoints.ListingIsExactlyTheAdvertisedPairs | hedgehog/gui/hedgehog_app.py:139-142 | Of `Listing`, the list the actor publishes: a pair is in it iff some peer with that name offers the service at that address. The list has no duplicates and is non-decreasing by address. |
| Endpoints.PeerWithoutServiceAddsNothing | hedgehog/gui/hedgehog_app.py:139-142 | Adding a peer that does not advertise the service adds no pair. Any list Python's sort may return for the larger snapshot has the length of `Listing` for the smaller one and the same address at every position. |
| Endpoints.ListingDeterminedUpToEqualAddresses | hedgehog/gui/hedgehog_app.py:139-142 | Take any duplicate-free list of exactly the advertised pairs that is non-decreasing by address. It has the published list's length and the same address at every position. So the only freedom is the order among equal addresses. |
| Endpoints.SortedEnumerationsAgreeOnAddresses | hedgehog/gui/hedgehog_app.py:142 | Two duplicate-free lists with the same members, both sorted by address, have the same length and the same address at every position. |
| Endpoints.TwoPeersListedInAddressOrder | hedgehog/gui/hedgehog_app.py:139-142 | Peers `A` at `10.0.0.1:1` and `B` at `10.0.0.2:2` offering the service are published as `[(A, 10.0.0.1:1), (B, 10.0.0.2:2)]`. |
| Endpoints.DisconnectExactlyWhenNoLongerAdvertised | hedgehog/gui/hedgehog_app.py:143-147 | Of `MustDisconnect`, the actor's decision: with a controller selected, the actor disconnects iff no peer of that name still advertises that endpoint for the service. With no controller selected, it never disconnects. |
| Controllers.ControllerItem.constructor | hedgehog/gui/hedgehog_app.py:71-74 | A new item carries the given name and endpoint and has no client. |
| Controllers.ControllerItem.Disconnect | hedgehog/gui/hedgehog_app.py:76-79 | Afterwards the item has no client, whether or not it had one. |
| Controllers.ControllerList.constructor | hedgehog/gui/hedgehog_app.py:85-87 | The list starts with no endpoints and an empty dictionary, which files every item under its own endpoint. |
| Controllers.ControllerList.UpdateEndpoints | hedgehog/gui/hedgehog_app.py:89-99 | The dictionary's keys become exactly the endpoints of the list. An item kept for a still-listed endpoint is the same object with the same client. An item whose endpoint is no longer listed has been disconnected. Each newly listed endpoint gets a fresh item without a client, named from the endpoint. Every item stays filed under its own `(name, endpoint)`. |
| Controllers.HedgehogApp.constructor | hedgehog/gui/hedgehog_app.py:173-177 | The service is `hedgehog_server`, no controller is selected and the endpoint list is empty. |
| Controllers.HedgehogApp.CurrentClient | hedgehog/gui/hedgehog_app.py:210-217 | With no controller selected, there is no client. Otherwise the result is the selected controller's client. When that client has gone, the controller is deselected. |
| Controllers.HedgehogApp.Disconnect | hedgehog/gui/hedgehog_app.py:236-239 | Afterwards no controller is selected. A previously selected controller has no client. |
| Controllers.HedgehogApp.Connect | hedgehog/gui/hedgehog_app.py:227-234 | Afterwards `c` is selected. Selecting the selected controller again leaves its client as it was. Otherwise the previous controller loses its client and `c` gets a client on its endpoint. |
| IoFlags.Flags | hedgehog/gui/hedgehog_app.py:44-57 | An output sends `OUTPUT`, ORed with `LEVEL` when the level is on. A digital or analog input sends its pull flag alone: `PULLUP`, `PULLDOWN`, or `0` when floating. |
| IoFlags.Update | hedgehog/gui/hedgehog_app.py:44-58 | The state action goes to the control's port. For an output it carries `OUTPUT`, with `LEVEL` when the level is on. For an input it carries the pull flag alone. |
| IoFlags.FlagsDetermineSettings | hedgehog/gui/hedgehog_app.py:44-57 | When the four flags are non-zero and share no bit: the word has `OUTPUT` iff the control is an output, and `LEVEL` iff it is an output set on. It has `PULLUP` or `PULLDOWN` iff it is an input with that pull. |
| IoFlags.IgnoredSettings | hedgehog/gui/hedgehog_app.py:56-57 | An input's flags do not depend on its level, and an output's flags do not depend on its pull. |
| Discovery.Run | hedgehog/gui/hedgehog_app.py:152-160 | The loop's sockets either all stay registered or all go, and every request made so far stays recorded. |
| Discovery.StepRequestsExactlyWhenDue | hedgehog/gui/hedgehog_app.py:154-160 | Of `Step`, one loop iteration: it requests the service iff `3000 - elapsed <= 0`. It then resets the reference time to the current reading. Otherwise it polls with a strictly positive timeout and leaves the reference time alone. On a clock that does not run backwards, the timeout is at most 3000 ms. |
| Discovery.RunKeepsPace | hedgehog/gui/hedgehog_app.py:152-160 | Whatever events arrive, any two successive requests are at least 3000 ms apart. The reference time stays the time of the last request. |
| Discovery.DueRequestIsNotPostponed | hedgehog/gui/hedgehog_app.py:153-157 | Change notifications do not push back a request. Of a run of iterations, the first that finds the interval elapsed requests the service. |
| Discovery.RunWithoutTermKeepsSockets | hedgehog/gui/hedgehog_app.py:153-160 | Without a `$TERM`, every socket stays registered, so the loop goes on. |
| Discovery.TermEndsTheLoop | hedgehog/gui/hedgehog_app.py:119-125 | A polling iteration that receives `$TERM` leaves no socket registered. The loop ends with that iteration. |
| Discovery.Handled | hedgehog/gui/hedgehog_app.py:143-147 | Running the handlers of a poll, through `Handle`, only ever keeps the selected controller or drops it, never selects another. |
| Discovery.HandledPublishesLastSnapshot | hedgehog/gui/hedgehog_app.py:138-142 | After the handlers of a poll, the application holds `Listing` of the last snapshot among them. Earlier snapshots of the same poll are overwritten. |
| Discovery.HandledWithoutSnapshotKeepsView | hedgehog/gui/hedgehog_app.py:119-147 | Handlers of commands alone leave the application's list and selection as they were. |
| Discovery.HandledDeselectsExactlyWhenDropped | hedgehog/gui/hedgehog_app.py:143-147 | The selected controller is dropped iff some snapshot of the poll has a `Listing` without its `(name, endpoint)`. |
| Discovery.RunView | hedgehog/gui/hedgehog_app.py:152-160 | The application's side of the loop, over the same iterations as `Run`: a requesting iteration leaves it alone and a polling one runs `Handled`. The selected controller is only ever kept or dropped. |
| Discovery.RunWithoutSnapshotsKeepsView | hedgehog/gui/hedgehog_app.py:152-160 | Iterations that carry no change notification leave the application's list and selection unchanged. |
| Discovery.RunKeepsSelectedUnlessDropped | hedgehog/gui/hedgehog_app.py:143-160 | The loop keeps the selected controller as long as no snapshot it receives drops it. |
| Discovery.DiscoveryActor.constructor | hedgehog/gui/hedgehog_app.py:110-111 | The poller starts with the command pipe as its only socket, and nothing has been requested yet. |
| Discovery.DiscoveryActor.Start | hedgehog/gui/hedgehog_app.py:131-152 | The service is requested once. The node's event socket is registered, and the reference time is the current reading. |
| Discovery.DiscoveryActor.Terminate | hedgehog/gui/hedgehog_app.py:123-125 | Every registered socket is unregistered. Nothing else changes. |
| Discovery.DiscoveryActor.OnPeersChanged | hedgehog/gui/hedgehog_app.py:136-147 | The application's endpoints become the sorted list of the snapshot's advertised pairs. If the selected controller is no longer listed, the application has no controller and that controller has no client. Otherwise the controller is unchanged. |
| Discovery.DiscoveryActor.HandleEvent | hedgehog/gui/hedgehog_app.py:117-147 | One handler: `$TERM` unregisters every socket, while any other event leaves the sockets, reference time and requests alone. The application's list and selection become `Handle` of the event. A deselected controller has lost its client, and a kept one still has its client. |
| Discovery.DiscoveryActor.Dispatch | hedgehog/gui/hedgehog_app.py:159-160 | After the handlers of the reported events have run, the sockets are gone iff one event was a `$TERM`. The reference time and the requests are untouched. The application's list and selection are exactly `Handled` of the events. A deselected controller has lost its client, and a kept one still has its client. |
| Discovery.DiscoveryActor.RunLoop | hedgehog/gui/hedgehog_app.py:152-160 | The actor's sockets, reference time and requests end exactly as the pure `Run` of the iterations. The application's list and selection end exactly as `RunView`. Request pacing is preserved. A deselected controller has lost its client, and a kept one still has its client. |

## Left out

- Kivy widgets, properties, templates and layout. This includes `add_widget`/`remove_widget` and the display position passed to `add_widget` in `ControllerList.update_endpoints`. Only the dictionary is modelled.
- The binding between `HedgehogApp.endpoints` and `ControllerList.endpoints` lives in a layout file that is not part of this model. `UpdateEndpoints` works on the list's own `endpoints` field.
- zmq sockets, the `Poller`, the `Actor` wrapper and its READY signal, and the `CommandRegistry`. These are abstracted as a set of registered sources and a sequence of reported events. Commands other than `$TERM` are left to the registry, and the model ignores them.
- `ServiceNode` networking. `join`, the 0.1 s sleep and closing the node are not modelled. `get_peers()` is an input snapshot, and `request_service` is recorded as the clock reading at which it was made.
- Wall-clock time: clock readings are integer milliseconds given as inputs. An iteration that requests the service reads the clock twice, once at line 154 and once at line 157, and the model takes one reading for both. The start-up request and the first reference time are likewise one reading.
- The sub-millisecond truncation of `int((time.time() - then) * 1000)` is not modelled, since readings are already whole milliseconds.
- `ControllerItem.Disconnect`: `client.close()` is a call into the client library, so only "the client is forgotten" is modelled. `HedgehogClient` construction is modelled as a client value on the controller's endpoint.
- `HedgehogApp.Connect`: `connect(None)` is excluded by the parameter's non-null type. In the source it is a no-op when no controller is selected. When a controller is selected, it disconnects that controller and then fails on `controller.client`.
- The robot commands and process execution: `MotorControl`, `ServoControl`, `IOControl.get_update`, `execute` and `action`. These are thin calls into the unseen client library.
- The lifecycle hooks `on_start`, `on_stop`, `on_pause`, `on_resume`, `setup_actor` and `teardown_actor`. They create or destroy the actor, which runs `constructor`, `Start` and `RunLoop` in that order. `on_stop` and `on_pause` also call `disconnect`, which is modelled as `HedgehogApp.Disconnect`. `on_start` also sets the editor's text, a widget concern.
- The numeric values of `io.OUTPUT`, `io.PULLUP`, `io.PULLDOWN` and `io.LEVEL` come from the protocol library. They are parameters, and a flag word is the set of its one-bit positions.
- Concurrency between the actor's thread and the application's thread is not modelled. Each handler runs to completion.
- Python's iteration order over dictionaries and sets is not modelled. This covers the order in which `update_endpoints` visits stale items, which does not affect its result. It also covers the tie order among equal addresses, which the model fixes by peer name, as explained above.
