/** The discovery actor: a loop that re-requests the application's service
    every three seconds, republishes the endpoint list whenever the discovery
    node reports a change in its peer table, and stops once a `$TERM`
    command has unregistered every socket of its poller.

    Sockets, the poller and the node are outside the model. One iteration
    of the loop sees a clock reading in milliseconds and the events that
    `poll` would report; a readable node socket comes with the peer snapshot
    `get_peers()` returns at that moment. */
module Discovery {
  import opened Optional
  import opened Endpoints
  import opened Controllers

  /** Milliseconds between two requests for the service. */
  const ReannounceInterval: int := 3000

  /** The one command the actor's command pipe understands. */
  const TermCommand: string := "$TERM"

  /** The sockets the poller can have registered. */
  datatype Source = CommandPipe | NodeEvents

  /** A readable socket as its handler sees it: the first frame of a
      message on the command pipe, or a change notification of the node
      together with the node's current peers. */
  datatype Event =
    | Command(name: string)
    | PeersChanged(peers: set<Peer>)

  /** The inputs of one loop iteration: the clock reading, and what `poll`
      reports if the iteration polls. */
  datatype Wake = Wake(now: int, ready: seq<Event>)

  /** The loop's own state: the registered sockets, the reference time of
      the last request, and the clock readings at which the service was
      requested. */
  datatype Loop = Loop(sockets: set<Source>, since: int, requests: seq<int>)

  /** The time left before the next request is due. */
  function Timeout(now: int, since: int): int
  {
    ReannounceInterval - (now - since)
  }

  predicate IsTerm(e: Event)
  {
    e.Command? && e.name == TermCommand
  }

  predicate HasTerm(ready: seq<Event>)
  {
    exists j :: 0 <= j < |ready| && IsTerm(ready[j])
  }

  /** The registered sockets after the handlers of `ready` ran: a `$TERM`
      unregisters every socket, every other event leaves them alone. */
  function Dispatched(sockets: set<Source>, ready: seq<Event>): set<Source>
  {
    if HasTerm(ready) then {} else sockets
  }

  /** One iteration of the loop: either the request is due, and the service
      is requested and the reference time reset, or the poller waits for the
      time left and the ready handlers run. */
  function Step(s: Loop, w: Wake): Loop
  {
    if Timeout(w.now, s.since) <= 0 then
      s.(since := w.now, requests := s.requests + [w.now])
    else
      s.(sockets := Dispatched(s.sockets, w.ready))
  }

  /** The loop over a sequence of iterations: it runs while a socket is
      registered. Its sockets only ever stay as they are or all go, and the
      requests made so far stay recorded. */
  function Run(s: Loop, ws: seq<Wake>): (r: Loop)
    ensures r.sockets == {} || r.sockets == s.sockets
    ensures |s.requests| <= |r.requests| && r.requests[..|s.requests|] == s.requests
    decreases |ws|
  {
    if s.sockets == {} || ws == [] then s
    else Run(Step(s, ws[0]), ws[1..])
  }

  /** Each iteration either requests the service, exactly when no time is
      left, or polls with a strictly positive timeout that leaves the
      reference time as it was. On a clock that does not run backwards the
      poll waits at most one interval. */
  lemma StepRequestsExactlyWhenDue(s: Loop, w: Wake)
    ensures |Step(s, w).requests| == |s.requests| + 1 <==> Timeout(w.now, s.since) <= 0
    ensures Timeout(w.now, s.since) <= 0 ==> Step(s, w).since == w.now && Step(s, w).requests[|s.requests|] == w.now
    ensures Timeout(w.now, s.since) > 0 ==> Step(s, w).since == s.since && Step(s, w).requests == s.requests
    ensures s.since <= w.now ==> Timeout(w.now, s.since) <= ReannounceInterval
  {
  }

  /** Requests are spaced at least one interval apart, and the reference
      time is the time of the last one. */
  ghost predicate Paced(s: Loop)
  {
    && |s.requests| > 0
    && s.requests[|s.requests| - 1] == s.since
    && forall i :: 0 < i < |s.requests| ==> s.requests[i] - s.requests[i - 1] >= ReannounceInterval
  }

  /** Change notifications do not make the actor request the service more
      often: whatever the events, two requests are one interval apart. */
  lemma {:induction false} RunKeepsPace(s: Loop, ws: seq<Wake>)
    requires Paced(s)
    ensures Paced(Run(s, ws))
    decreases |ws|
  {
    if s.sockets != {} && ws != [] {
      var t := Step(s, ws[0]);
      if Timeout(ws[0].now, s.since) <= 0 {
        assert t.requests[|t.requests| - 1] == ws[0].now;
        forall i | 0 < i < |t.requests|
          ensures t.requests[i] - t.requests[i - 1] >= ReannounceInterval
        {
          if i < |s.requests| {
            assert t.requests[i] == s.requests[i] && t.requests[i - 1] == s.requests[i - 1];
          }
        }
      }
      RunKeepsPace(t, ws[1..]);
    }
  }

  /** Change notifications do not postpone a request either: the first
      iteration that finds no time left requests the service, however many
      iterations polled before it. */
  lemma {:induction false} DueRequestIsNotPostponed(s: Loop, ws: seq<Wake>, k: nat)
    requires s.sockets != {}
    requires k < |ws|
    requires forall j :: 0 <= j < k ==> Timeout(ws[j].now, s.since) > 0 && !HasTerm(ws[j].ready)
    requires Timeout(ws[k].now, s.since) <= 0
    ensures Run(s, ws[..k + 1]) == Loop(s.sockets, ws[k].now, s.requests + [ws[k].now])
    decreases k
  {
    if k == 0 {
      assert ws[..1][1..] == [];
    } else {
      assert Step(s, ws[0]) == s;
      assert ws[..k + 1][1..] == ws[1..][..k];
      DueRequestIsNotPostponed(s, ws[1..], k - 1);
    }
  }

  /** Only `$TERM` ends the loop: a run whose iterations carry no `$TERM`
      keeps every socket registered. */
  lemma {:induction false} RunWithoutTermKeepsSockets(s: Loop, ws: seq<Wake>)
    requires forall j :: 0 <= j < |ws| ==> !HasTerm(ws[j].ready)
    ensures Run(s, ws).sockets == s.sockets
    decreases |ws|
  {
    if s.sockets != {} && ws != [] {
      RunWithoutTermKeepsSockets(Step(s, ws[0]), ws[1..]);
    }
  }

  /** A `$TERM` that a polling iteration receives ends the loop with that
      iteration: nothing after it is processed. */
  lemma TermEndsTheLoop(s: Loop, w: Wake, rest: seq<Wake>)
    requires Timeout(w.now, s.since) > 0 && HasTerm(w.ready)
    ensures Run(s, [w] + rest).sockets == {}
    ensures s.sockets != {} ==> Run(s, [w] + rest) == Step(s, w)
  {
    assert ([w] + rest)[1..] == rest;
  }

  /** The `(name, endpoint)` of the selected controller, if there is one. */
  function IdentOf(c: ControllerItem?): Option<Endpoint>
  {
    if c == null then None else Some(c.Ident())
  }

  /** What the application holds of the actor's work: the published
      endpoint list and the `(name, endpoint)` of the selected controller. */
  datatype View = View(endpoints: seq<Endpoint>, selected: Option<Endpoint>)

  /** One handler, as the application sees it: a change notification
      publishes the snapshot's listing and drops a selected controller that
      is no longer listed; a command leaves the application alone. */
  function Handle(v: View, e: Event, service: string): View
  {
    match e
    case Command(_) => v
    case PeersChanged(peers) =>
      var listing := Listing(peers, service);
      View(listing, if MustDisconnect(v.selected, listing) then None else v.selected)
  }

  /** The handlers of `ready`, run in order. A selected controller is only
      ever kept or dropped, never replaced by another. */
  function Handled(v: View, ready: seq<Event>, service: string): (r: View)
    ensures r.selected == v.selected || r.selected == None
    decreases |ready|
  {
    if ready == [] then v
    else Handle(Handled(v, ready[..|ready| - 1], service), ready[|ready| - 1], service)
  }

  /** Some change notification of `ready` carries a snapshot whose listing
      lacks `ident`. */
  ghost predicate Drops(ident: Endpoint, ready: seq<Event>, service: string)
  {
    exists k :: 0 <= k < |ready| && ready[k].PeersChanged? && ident !in Listing(ready[k].peers, service)
  }

  /** The application ends up with the listing of the last snapshot the
      handlers saw; earlier snapshots are overwritten. */
  lemma {:induction false} HandledPublishesLastSnapshot(v: View, ready: seq<Event>, service: string, j: nat)
    requires j < |ready| && ready[j].PeersChanged?
    requires forall k :: j < k < |ready| ==> !ready[k].PeersChanged?
    ensures Handled(v, ready, service).endpoints == Listing(ready[j].peers, service)
    decreases |ready|
  {
    if j < |ready| - 1 {
      var front := ready[..|ready| - 1];
      assert front[j] == ready[j];
      forall k | j < k < |front|
        ensures !front[k].PeersChanged?
      {
        assert front[k] == ready[k];
      }
      HandledPublishesLastSnapshot(v, front, service, j);
    }
  }

  /** Without a change notification the application is left as it was. */
  lemma {:induction false} HandledWithoutSnapshotKeepsView(v: View, ready: seq<Event>, service: string)
    requires forall k :: 0 <= k < |ready| ==> !ready[k].PeersChanged?
    ensures Handled(v, ready, service) == v
    decreases |ready|
  {
    if ready != [] {
      var front := ready[..|ready| - 1];
      forall k | 0 <= k < |front|
        ensures !front[k].PeersChanged?
      {
        assert front[k] == ready[k];
      }
      HandledWithoutSnapshotKeepsView(v, front, service);
    }
  }

  /** The selected controller is dropped exactly when one of the snapshots
      no longer lists it. */
  lemma {:induction false} HandledDeselectsExactlyWhenDropped(v: View, ready: seq<Event>, service: string)
    requires v.selected.Some?
    ensures Handled(v, ready, service).selected == None <==> Drops(v.selected.value, ready, service)
    decreases |ready|
  {
    if ready != [] {
      var ident := v.selected.value;
      var front := ready[..|ready| - 1];
      var last := ready[|ready| - 1];
      HandledDeselectsExactlyWhenDropped(v, front, service);
      if Drops(ident, front, service) {
        var k :| 0 <= k < |front| && front[k].PeersChanged? && ident !in Listing(front[k].peers, service);
        assert ready[k] == front[k];
      }
      if Drops(ident, ready, service) && !(last.PeersChanged? && ident !in Listing(last.peers, service)) {
        var k :| 0 <= k < |ready| && ready[k].PeersChanged? && ident !in Listing(ready[k].peers, service);
        assert front[k] == ready[k];
      }
      if last.PeersChanged? && ident !in Listing(last.peers, service) {
        assert ready[|ready| - 1] == last;
      }
    }
  }

  /** The application's side of the loop over the same iterations as `Run`:
      an iteration that requests the service leaves the application alone,
      one that polls runs the handlers of what it received. */
  function RunView(s: Loop, v: View, ws: seq<Wake>, service: string): (r: View)
    ensures r.selected == v.selected || r.selected == None
    decreases |ws|
  {
    if s.sockets == {} || ws == [] then v
    else
      var v' := if Timeout(ws[0].now, s.since) <= 0 then v else Handled(v, ws[0].ready, service);
      RunView(Step(s, ws[0]), v', ws[1..], service)
  }

  /** Iterations that carry no change notification leave the application's
      list and selection as they were. */
  lemma {:induction false} RunWithoutSnapshotsKeepsView(s: Loop, v: View, ws: seq<Wake>, service: string)
    requires forall j, k :: 0 <= j < |ws| && 0 <= k < |ws[j].ready| ==> !ws[j].ready[k].PeersChanged?
    ensures RunView(s, v, ws, service) == v
    decreases |ws|
  {
    if s.sockets != {} && ws != [] {
      HandledWithoutSnapshotKeepsView(v, ws[0].ready, service);
      RunWithoutSnapshotsKeepsView(Step(s, ws[0]), v, ws[1..], service);
    }
  }

  /** The loop keeps the selected controller as long as no snapshot it
      receives drops it. */
  lemma {:induction false} RunKeepsSelectedUnlessDropped(s: Loop, v: View, ws: seq<Wake>, service: string)
    requires v.selected.Some?
    requires forall j :: 0 <= j < |ws| ==> !Drops(v.selected.value, ws[j].ready, service)
    ensures RunView(s, v, ws, service).selected == v.selected
    decreases |ws|
  {
    if s.sockets != {} && ws != [] {
      var v' := if Timeout(ws[0].now, s.since) <= 0 then v else Handled(v, ws[0].ready, service);
      if Timeout(ws[0].now, s.since) > 0 {
        HandledDeselectsExactlyWhenDropped(v, ws[0].ready, service);
      }
      RunKeepsSelectedUnlessDropped(Step(s, ws[0]), v', ws[1..], service);
    }
  }

  /** The actor's state: its poller's registered sockets, the reference time
      and the record of its requests for the application's service. */
  class DiscoveryActor {
    const app: HedgehogApp
    var sockets: set<Source>
    var since: int
    var requests: seq<int>

    function State(): Loop
      reads this
    {
      Loop(sockets, since, requests)
    }

    /** The application as the actor's handlers see it. */
    function AppView(): View
      reads this, app
    {
      View(app.endpoints, IdentOf(app.controller))
    }

    /** Registers the command pipe, the only socket before the loop starts. */
    constructor (app: HedgehogApp)
      ensures this.app == app
      ensures sockets == {CommandPipe} && requests == []
    {
      this.app := app;
      sockets := {CommandPipe};
      since := 0;
      requests := [];
    }

    /** Joins the service's group, requests the service, registers the
        node's event socket and takes the reference time. */
    method Start(now: int)
      modifies this
      ensures sockets == old(sockets) + {NodeEvents}
      ensures since == now && requests == old(requests) + [now]
    {
      requests := requests + [now];
      sockets := sockets + {NodeEvents};
      since := now;
    }

    /** Unregisters every socket, one by one. */
    method Terminate()
      modifies this
      ensures sockets == {}
      ensures since == old(since) && requests == old(requests)
    {
      var pending := sockets;
      while pending != {}
        invariant sockets == pending
        invariant since == old(since) && requests == old(requests)
        decreases pending
      {
        var socket :| socket in pending;
        sockets := sockets - {socket};
        pending := pending - {socket};
      }
    }

    /** Handles a change notification: publishes the endpoint list of the
        given peers to the application and, when the selected controller is
        no longer listed, has the application disconnect it. */
    method OnPeersChanged(peers: set<Peer>)
      modifies app, app.controller
      ensures app.endpoints == Listing(peers, app.service)
      ensures MustDisconnect(IdentOf(old(app.controller)), app.endpoints) ==>
        app.controller == null && old(app.controller).client == None
      ensures !MustDisconnect(IdentOf(old(app.controller)), app.endpoints) ==>
        app.controller == old(app.controller) && (old(app.controller) != null ==> unchanged(old(app.controller)))
    {
      app.endpoints := Listing(peers, app.service);
      var controller := app.controller;
      if controller != null {
        var ident := controller.Ident();
        if ident !in app.endpoints {
          app.Disconnect();
        }
      }
    }

    /** Runs the handler of one event: `$TERM` unregisters every socket, a
        change notification updates the application, any other command is
        ignored. */
    method HandleEvent(e: Event)
      modifies this, app, app.controller
      ensures sockets == if IsTerm(e) then {} else old(sockets)
      ensures since == old(since) && requests == old(requests)
      ensures AppView() == Handle(old(AppView()), e, app.service)
      ensures app.controller == null || app.controller == old(app.controller)
      ensures old(app.controller) != null ==>
        if app.controller == null then old(app.controller).client == None
        else old(app.controller).client == old(app.controller.client)
    {
      match e
      case Command(name) =>
        if name == TermCommand {
          Terminate();
        }
      case PeersChanged(peers) =>
        OnPeersChanged(peers);
    }

    /** Runs the handlers of the events `poll` reported, in order. */
    method Dispatch(ready: seq<Event>)
      modifies this, app, app.controller
      ensures sockets == Dispatched(old(sockets), ready)
      ensures since == old(since) && requests == old(requests)
      ensures AppView() == Handled(old(AppView()), ready, app.service)
      ensures app.controller == null || app.controller == old(app.controller)
      ensures old(app.controller) != null ==>
        if app.controller == null then old(app.controller).client == None
        else old(app.controller).client == old(app.controller.client)
    {
      for k := 0 to |ready|
        invariant sockets == Dispatched(old(sockets), ready[..k])
        invariant since == old(since) && requests == old(requests)
        invariant AppView() == Handled(old(AppView()), ready[..k], app.service)
        invariant app.controller == null || app.controller == old(app.controller)
        invariant old(app.controller) != null ==>
          if app.controller == null then old(app.controller).client == None
          else old(app.controller).client == old(app.controller.client)
      {
        assert HasTerm(ready[..k + 1]) <==> HasTerm(ready[..k]) || IsTerm(ready[k]) by {
          assert forall j :: 0 <= j < k ==> ready[..k + 1][j] == ready[..k][j];
          assert ready[..k + 1][k] == ready[k];
        }
        assert ready[..k + 1][..k] == ready[..k] && ready[..k + 1][k] == ready[k];
        HandleEvent(ready[k]);
      }
      assert ready[..|ready|] == ready;
    }

    /** The loop: while a socket is registered, request the service when it
        is due, otherwise poll for the time left and run the handlers. It
        ends when the iterations run out or a `$TERM` has unregistered every
        socket. */
    method RunLoop(ws: seq<Wake>)
      modifies this, app, app.controller
      ensures State() == Run(old(State()), ws)
      ensures AppView() == RunView(old(State()), old(AppView()), ws, app.service)
      ensures Paced(old(State())) ==> Paced(State())
      ensures app.controller == null || app.controller == old(app.controller)
      ensures old(app.controller) != null ==>
        if app.controller == null then old(app.controller).client == None
        else old(app.controller).client == old(app.controller.client)
    {
      var i := 0;
      while sockets != {} && i < |ws|
        invariant 0 <= i <= |ws|
        invariant Run(State(), ws[i..]) == Run(old(State()), ws)
        invariant RunView(State(), AppView(), ws[i..], app.service) == RunView(old(State()), old(AppView()), ws, app.service)
        invariant app.controller == null || app.controller == old(app.controller)
        invariant old(app.controller) != null ==>
          if app.controller == null then old(app.controller).client == None
          else old(app.controller).client == old(app.controller.client)
        decreases |ws| - i
      {
        var w := ws[i];
        assert ws[i..][0] == w && ws[i..][1..] == ws[i + 1..];
        ghost var before := State();
        ghost var beforeView := AppView();
        var timeout := Timeout(w.now, since);
        if timeout <= 0 {
          requests := requests + [w.now];
          since := w.now;
        } else {
          Dispatch(w.ready);
        }
        assert State() == Step(before, w);
        assert AppView() == if Timeout(w.now, before.since) <= 0 then beforeView else Handled(beforeView, w.ready, app.service);
        i := i + 1;
      }
      if Paced(old(State())) {
        RunKeepsPace(old(State()), ws);
      }
    }
  }
}
