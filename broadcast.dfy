/** The web server's side of the event stream (http/server.go; routes.go
    carries the same code for package `main`): the registry of websocket
    subscribers, the choice of template for a hub message, and the
    fan-out of the rendered HTML to every subscriber's queue. Template
    parsing and rendering are abstract: a handler knows its template names
    and an `execute` function that may fail. */
module Broadcast {
  import opened Results
  import opened NexaTypes
  import opened Channels

  /** hasString: whether `value` occurs in `slice`. */
  method HasString(slice: seq<string>, value: string) returns (found: bool)
    ensures found <==> value in slice
  {
    found := false;
    var i := 0;
    while i < |slice|
      invariant 0 <= i <= |slice|
      invariant value !in slice[..i]
    {
      if slice[i] == value {
        return true;
      }
      assert slice[..i + 1] == slice[..i] + [slice[i]];
      i := i + 1;
    }
    assert slice[..i] == slice;
  }

  /** The parsed templates: their names, and rendering of a message with
      the template of a given name (`ExecuteTemplate`). */
  datatype TemplateHandler = TemplateHandler(
    names: seq<string>,
    execute: (string, Message) -> Result<string, string>)
  {
    /** HasTemplate: whether some template has exactly this name. */
    method HasTemplate(name: string) returns (found: bool)
      ensures found <==> exists i :: 0 <= i < |names| && names[i] == name
    {
      var i := 0;
      while i < |names|
        invariant 0 <= i <= |names|
        invariant forall j :: 0 <= j < i ==> names[j] != name
      {
        if names[i] == name {
          return true;
        }
        i := i + 1;
      }
      return false;
    }
  }

  /** The template a message is rendered with: its capability when it has
      one, else its subtype for a "time" message, else none (""). */
  function TemplateFor(msg: Message): (name: string)
    ensures msg.capability != "" ==> name == msg.capability
    ensures msg.capability == "" && msg.systemType == "time" ==> name == msg.subtype
    ensures name == "" <==> msg.capability == "" && (msg.systemType != "time" || msg.subtype == "")
  {
    if msg.capability != "" then msg.capability
    else if msg.systemType == "time" then msg.subtype
    else ""
  }

  /** What broadcasting a message comes to. */
  datatype Delivery =
    | Ignored(template: string)  // no template of that name: nothing sent, no error
    | Failed(error: string)      // rendering failed: the error is returned, nothing sent
    | Deliver(html: string)      // every subscriber is sent this text

  function Route(templates: TemplateHandler, msg: Message): (d: Delivery)
    ensures d.Ignored? <==> TemplateFor(msg) !in templates.names
    ensures d.Ignored? ==> d.template == TemplateFor(msg)
    ensures d.Failed? ==> templates.execute(TemplateFor(msg), msg) == Err(d.error)
    ensures d.Deliver? ==> templates.execute(TemplateFor(msg), msg) == Ok(d.html)
  {
    var name := TemplateFor(msg);
    if name !in templates.names then Ignored(name)
    else match templates.execute(name, msg)
      case Err(e) => Failed(e)
      case Ok(html) => Deliver(html)
  }

  /** A message without a capability that is not a "time" message is
      never delivered unless a template is literally named "". */
  lemma UntemplatedIgnored(templates: TemplateHandler, msg: Message)
    requires msg.capability == "" && msg.systemType != "time"
    requires "" !in templates.names
    ensures Route(templates, msg) == Ignored("")
  {
  }

  /** The text each subscriber receives for a run of messages: one entry
      per message that has a template and renders. */
  function Deliveries(templates: TemplateHandler, msgs: seq<Message>): (r: seq<string>)
    ensures |r| <= |msgs|
    decreases |msgs|
  {
    if |msgs| == 0 then []
    else
      var n := |msgs| - 1;
      var d := Route(templates, msgs[n]);
      Deliveries(templates, msgs[..n]) + (if d.Deliver? then [d.html] else [])
  }

  /** Delivery of a run of messages is delivery of each part in turn. */
  lemma {:induction false} DeliveriesAppend(templates: TemplateHandler, a: seq<Message>, b: seq<Message>)
    ensures Deliveries(templates, a + b) == Deliveries(templates, a) + Deliveries(templates, b)
    decreases |b|
  {
    if |b| > 0 {
      var n := |b| - 1;
      DeliveriesAppend(templates, a, b[..n]);
      assert (a + b)[..|a + b| - 1] == a + b[..n];
      assert (a + b)[|a + b| - 1] == b[n];
    } else {
      assert a + b == a;
    }
  }

  /** A registry key: Go keys the subscriber map by the struct's value, so
      two entries are the same exactly when queue and address are. */
  datatype Subscriber = Subscriber(messages: Channel<string>, ip: string)

  /** Every registered subscriber has a queue of its own (each websocket
      connection makes a fresh channel). */
  ghost predicate DistinctQueues(subscribers: set<Subscriber>) {
    forall a, b :: a in subscribers && b in subscribers && a.messages == b.messages ==> a == b
  }

  class Server {
    const host: string
    const port: int
    const homeName: string
    const templates: TemplateHandler
    var subscribers: set<Subscriber>

    /** A server with no subscribers yet. */
    constructor(host: string, port: int, homeName: string, templates: TemplateHandler)
      ensures this.host == host && this.port == port && this.homeName == homeName
      ensures this.templates == templates
      ensures subscribers == {}
    {
      this.host := host;
      this.port := port;
      this.homeName := homeName;
      this.templates := templates;
      subscribers := {};
    }

    /** The queues of the registered subscribers. */
    ghost function Queues(): set<Channel<string>>
      reads this
    {
      set s | s in subscribers :: s.messages
    }

    /** Queues never closed, as in the server (no code closes them). */
    ghost predicate QueuesOpen()
      reads this, Queues()
    {
      forall s :: s in subscribers ==> !s.messages.closed
    }

    /** addSubscriber: the subscriber is registered; adding it again
        changes nothing; no other entry is touched. */
    method AddSubscriber(s: Subscriber)
      modifies this
      ensures s in subscribers
      ensures forall t :: t != s ==> (t in subscribers <==> t in old(subscribers))
      ensures old(s in subscribers) ==> subscribers == old(subscribers)
    {
      subscribers := subscribers + {s};
    }

    /** removeSubscriber: the subscriber is no longer registered; removing
        an absent one changes nothing; no other entry is touched. */
    method RemoveSubscriber(s: Subscriber)
      modifies this
      ensures s !in subscribers
      ensures forall t :: t != s ==> (t in subscribers <==> t in old(subscribers))
      ensures old(s !in subscribers) ==> subscribers == old(subscribers)
    {
      subscribers := subscribers - {s};
    }

    /** broadcast: pick the template, give up quietly when there is none,
        return the rendering error when rendering fails, and otherwise
        send the one rendered text to every registered subscriber. The
        registry itself is not changed. */
    method Broadcast(msg: Message) returns (err: Option<string>)
      requires QueuesOpen()
      modifies Queues()
      ensures var d := Route(templates, msg);
        (err.Some? <==> d.Failed?) &&
        (d.Failed? ==> err == Some(d.error)) &&
        (!d.Deliver? ==> forall s :: s in subscribers ==> s.messages.items == old(s.messages.items)) &&
        (d.Deliver? && DistinctQueues(subscribers) ==>
          forall s :: s in subscribers ==> s.messages.items == old(s.messages.items) + [d.html])
      ensures QueuesOpen()
    {
      var name := TemplateFor(msg);
      var known := templates.HasTemplate(name);
      if !known {
        return None;
      }
      var rendered := templates.execute(name, msg);
      if rendered.Err? {
        return Some(rendered.error);
      }
      var html := rendered.value;
      var pending := subscribers;
      while pending != {}
        invariant pending <= subscribers
        invariant QueuesOpen()
        invariant DistinctQueues(subscribers) ==> forall s :: s in subscribers ==>
          s.messages.items == old(s.messages.items) + (if s in pending then [] else [html])
        decreases pending
      {
        var s :| s in pending;
        s.messages.Send(html);
        pending := pending - {s};
      }
      return None;
    }

    /** The goroutine started with the server: broadcast every message of
        the hub's stream, in order, logging and otherwise ignoring
        broadcast errors, until the stream is closed and drained. */
    method Pump(input: Channel<Message>)
      requires input.closed && QueuesOpen()
      modifies input, Queues()
      ensures input.items == [] && input.closed
      ensures DistinctQueues(subscribers) ==> forall s :: s in subscribers ==>
        s.messages.items == old(s.messages.items) + Deliveries(templates, old(input.items))
    {
      ghost var msgs := input.items;
      var done := false;
      while !done
        invariant input.closed && QueuesOpen()
        invariant |input.items| <= |msgs|
        invariant input.items == msgs[|msgs| - |input.items|..]
        invariant DistinctQueues(subscribers) ==> forall s :: s in subscribers ==>
          s.messages.items == old(s.messages.items) + Deliveries(templates, msgs[..|msgs| - |input.items|])
        invariant done ==> input.items == []
        decreases |input.items|, !done
      {
        ghost var before := |msgs| - |input.items|;
        var next := input.Receive();
        match next {
          case None =>
            done := true;
          case Some(msg) =>
            assert msg == msgs[before];
            assert msgs[..before + 1][..before] == msgs[..before];
            var _ := Broadcast(msg);
        }
      }
      assert msgs[..|msgs|] == msgs;
    }
  }
}
