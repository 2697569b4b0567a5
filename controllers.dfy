/** The application's controller bookkeeping: the list items that stand for
    discovered controllers, the list that keeps one item per published
    endpoint, and the application's choice of the controller it talks to. */
module Controllers {
  import opened Optional
  import opened Endpoints

  /** A client connection opened on a controller's endpoint address. */
  datatype Client = Client(endpoint: string)

  /** One discovered controller as the list shows it, with the client
      connection it holds while selected. */
  class ControllerItem {
    const name: string
    const endpoint: string
    var client: Option<Client>

    constructor (name: string, endpoint: string)
      ensures this.name == name && this.endpoint == endpoint
      ensures client == None
    {
      this.name := name;
      this.endpoint := endpoint;
      client := None;
    }

    /** The `(name, endpoint)` pair the item stands for. */
    function Ident(): Endpoint
    {
      Endpoint(name, endpoint)
    }

    /** Closes the item's client, if it has one, and forgets it. */
    method Disconnect()
      modifies this
      ensures client == None
    {
      if client.Some? {
        client := None;
      }
    }
  }

  /** The list of controllers: one item per endpoint of `endpoints`, kept
      in a map from endpoint to item. */
  class ControllerList {
    var endpoints: seq<Endpoint>
    var items: map<Endpoint, ControllerItem>

    /** Each item stands for the endpoint it is filed under, so no item is
        filed twice. */
    ghost predicate Valid()
      reads this
    {
      forall e :: e in items ==> items[e].Ident() == e
    }

    constructor ()
      ensures Valid()
      ensures endpoints == [] && items == map[]
    {
      endpoints := [];
      items := map[];
    }

    /** Brings the items in step with `endpoints`: items whose endpoint is no
        longer listed are disconnected and dropped, newly listed endpoints
        get a fresh item without a client, and every other item stays as it
        is. */
    method UpdateEndpoints()
      requires Valid()
      modifies this, items.Values
      ensures Valid()
      ensures endpoints == old(endpoints)
      ensures items.Keys == set e | e in endpoints
      ensures forall e :: e in old(items) && e in endpoints ==>
        items[e] == old(items)[e] && items[e].client == old(items[e].client)
      ensures forall e :: e in old(items) && e !in endpoints ==> old(items)[e].client == None
      ensures forall e :: e in items && e !in old(items) ==> fresh(items[e]) && items[e].client == None
    {
      var pending := items.Keys;
      while pending != {}
        invariant pending <= old(items).Keys
        invariant endpoints == old(endpoints)
        invariant forall e :: e in items <==> e in old(items) && (e in pending || e in endpoints)
        invariant forall e :: e in items ==> items[e] == old(items)[e]
        invariant forall e :: e in old(items) && (e in pending || e in endpoints) ==>
          old(items)[e].client == old(items[e].client)
        invariant forall e :: e in old(items) && e !in pending && e !in endpoints ==> old(items)[e].client == None
        decreases pending
      {
        var e :| e in pending;
        pending := pending - {e};
        if e !in endpoints {
          var item := items[e];
          item.Disconnect();
          items := items - {e};
        }
      }
      for i := 0 to |endpoints|
        invariant endpoints == old(endpoints)
        invariant forall e :: e in items <==> (e in old(items) && e in endpoints) || e in endpoints[..i]
        invariant forall e :: e in old(items) && e in endpoints ==>
          items[e] == old(items)[e] && items[e].client == old(items[e].client)
        invariant forall e :: e in old(items) && e !in endpoints ==> old(items)[e].client == None
        invariant forall e :: e in items && e !in old(items) ==> fresh(items[e]) && items[e].client == None
        invariant Valid()
      {
        var e := endpoints[i];
        if e !in items {
          var item := new ControllerItem(e.name, e.address);
          items := items[e := item];
        }
      }
    }
  }

  /** The application: the discovered endpoints and the selected controller. */
  class HedgehogApp {
    const service: string
    var controller: ControllerItem?
    var endpoints: seq<Endpoint>

    constructor ()
      ensures service == "hedgehog_server"
      ensures controller == null && endpoints == []
    {
      service := "hedgehog_server";
      controller := null;
      endpoints := [];
    }

    /** The selected controller's client. A selected controller whose client
        has gone is deselected, and then there is no client. */
    method CurrentClient() returns (c: Option<Client>)
      modifies this
      ensures endpoints == old(endpoints)
      ensures old(controller) == null ==> c == None && controller == null
      ensures old(controller) != null ==> c == old(controller.client)
      ensures old(controller) != null ==> controller == if c.None? then null else old(controller)
    {
      if controller == null {
        return None;
      }
      if controller.client.None? {
        controller := null;
        return None;
      }
      c := controller.client;
    }

    /** Drops the selected controller, closing its client. */
    method Disconnect()
      modifies this, controller
      ensures controller == null && endpoints == old(endpoints)
      ensures old(controller) != null ==> old(controller).client == None
    {
      if controller != null {
        controller.Disconnect();
        controller := null;
      }
    }

    /** Selects `c` and opens a client on its endpoint, after dropping the
        previously selected controller; selecting the selected controller
        again changes nothing. */
    method Connect(c: ControllerItem)
      modifies this, controller, c
      ensures endpoints == old(endpoints) && controller == c
      ensures c == old(controller) ==> c.client == old(c.client)
      ensures c != old(controller) ==> c.client == Some(Client(c.endpoint))
      ensures c != old(controller) && old(controller) != null ==> old(controller).client == None
    {
      if c == controller {
        return;
      }
      Disconnect();
      controller := c;
      c.client := Some(Client(c.endpoint));
    }
  }
}
