/** From a command request to the channels of the subscribers: target selection, publishing, and
    dispatching on the other side of Kafka. */
module CommandDelivery {
  import opened Common
  import opened Commands

  /** A device or gateway, as the registry describes it: the commands are those of its specification. */
  datatype Device = Device(name: string, enabled: bool, commands: seq<External>)

  datatype External = External(url: string)

  datatype Request = Request(device: string, command: string, body: seq<int>)

  datatype PublishOutcome = Accepted | Rejected | QueueFull | PublishError

  datatype Response = Ok200 | Accepted202 | NotAcceptable406 | Unavailable503 | Error500

  // ----- events -----

  datatype Extension = Text(text: string) | Other

  datatype Payload = Bytes(bytes: seq<int>) | Unreadable

  datatype CloudEvent = CloudEvent(extensions: map<string, Extension>, subject: Option<string>, data: Option<Payload>)

  const EXT_APPLICATION := "application"
  const EXT_DEVICE := "device"
  const EXT_SENDER := "sender"

  function ExtensionOf(ev: CloudEvent, name: string): Option<Extension> {
    if name in ev.extensions then Some(ev.extensions[name]) else None
  }

  /** The event that a publish puts on the wire. */
  function EventOf(app: string, request: Request, sender: string): CloudEvent {
    CloudEvent(map[EXT_APPLICATION := Text(app), EXT_DEVICE := Text(request.device), EXT_SENDER := Text(sender)],
               Some(request.command), Some(Bytes(request.body)))
  }

  /** Without a sender the device is its own gateway. */
  function AddressFromEvent(ev: CloudEvent): Option<Address> {
    match (ExtensionOf(ev, EXT_APPLICATION), ExtensionOf(ev, EXT_DEVICE))
    case (Some(Text(app)), Some(Text(device))) =>
      (match ExtensionOf(ev, EXT_SENDER)
       case Some(Text(sender)) => Some(Address(app, sender, device))
       case _ => Some(Address(app, device, device)))
    case _ => None
  }

  datatype ParseError = MissingAddress | MissingCommand | InvalidPayload

  function CommandFromEvent(ev: CloudEvent): Result<Command, ParseError> {
    match AddressFromEvent(ev)
    case None => Err(MissingAddress)
    case Some(address) =>
      if ev.data == Some(Unreadable) then Err(InvalidPayload)
      else if ev.subject.None? then Err(MissingCommand)
      else Ok(Command(address, ev.subject.value, match ev.data { case Some(Bytes(b)) => Some(b) case _ => None }))
  }

  function CommandFor(app: string, request: Request, target: string): Command {
    Command(Address(app, target, request.device), request.command, Some(request.body))
  }

  /** A published command arrives as the command for its target, with its name and body. */
  lemma EventRoundTrip(app: string, request: Request, target: string)
    ensures CommandFromEvent(EventOf(app, request, target)) == Ok(CommandFor(app, request, target))
    ensures CommandFor(app, request, target) ==
      Command(Address(app, target, request.device), request.command, Some(request.body))
  {
    ExtensionNamesDiffer();
    var ev := EventOf(app, request, target);
    assert ExtensionOf(ev, EXT_SENDER) == Some(Text(target));
  }

  lemma ExtensionNamesDiffer()
    ensures EXT_APPLICATION != EXT_DEVICE && EXT_DEVICE != EXT_SENDER && EXT_APPLICATION != EXT_SENDER
  {
    assert |EXT_APPLICATION| == 11 && |EXT_DEVICE| == 6 && |EXT_SENDER| == 6 && EXT_DEVICE[0] != EXT_SENDER[0];
  }

  /** The text of an extension, if it has one. */
  function TextOf(ev: CloudEvent, name: string): Option<string> {
    if name in ev.extensions && ev.extensions[name].Text? then Some(ev.extensions[name].text) else None
  }

  /** What any event is read as. It needs application, device, subject and a readable payload, if it has one; without a
      sender the device is its own gateway. */
  lemma EventsAreRead(ev: CloudEvent)
    ensures var app, device, sender := TextOf(ev, "application"), TextOf(ev, "device"), TextOf(ev, "sender");
      CommandFromEvent(ev) ==
        if app == None || device == None then Err(MissingAddress)
        else if ev.data.Some? && ev.data.value.Unreadable? then Err(InvalidPayload)
        else if ev.subject == None then Err(MissingCommand)
        else Ok(Command(
          Address(app.value, if sender.Some? then sender.value else device.value, device.value), ev.subject.value,
          if ev.data.Some? then Some(ev.data.value.bytes) else None))
  {
  }

  // ----- target selection -----

  /** The names a command is published for: the device and its enabled gateways. */
  function Targets(device: Device, gateways: seq<Device>): seq<string> {
    if gateways == [] then [device.name]
    else
      var n := |gateways| - 1;
      Targets(device, gateways[..n]) + if gateways[n].enabled then [gateways[n].name] else []
  }

  predicate IsExternal(gateway: Device) {
    gateway.enabled && gateway.commands != []
  }

  predicate HasExternal(gateways: seq<Device>) {
    exists i :: 0 <= i < |gateways| && IsExternal(gateways[i])
  }

  function Events(app: string, request: Request, targets: seq<string>): seq<CloudEvent> {
    seq(|targets|, i requires 0 <= i < |targets| => EventOf(app, request, targets[i]))
  }

  /** Nothing is published for a disabled device, nor if an enabled gateway has an external command, which then
      is called once. Otherwise the command is published for the device and each enabled gateway, in order, up
      to the first refusal; `publish` answers the attempts in turn. */
  method ProcessCommand(app: string, device: Device, gateways: seq<Device>, request: Request,
                        publish: nat -> PublishOutcome, callExternal: External -> bool)
    returns (response: Response, published: seq<CloudEvent>, called: seq<External>)
    ensures !device.enabled ==> response == NotAcceptable406 && published == [] && called == []
    ensures device.enabled && HasExternal(gateways) ==>
      && published == [] && |called| == 1
      && (exists i :: 0 <= i < |gateways| && IsExternal(gateways[i]) && !HasExternal(gateways[..i])
            && called[0] == gateways[i].commands[|gateways[i].commands| - 1])
      && response == if callExternal(called[0]) then Ok200 else NotAcceptable406
    ensures device.enabled && !HasExternal(gateways) ==>
      && called == [] && published <= Events(app, request, Targets(device, gateways))
      && (forall i: nat :: i < |published| ==> publish(i) == Accepted)
      && (if published == Events(app, request, Targets(device, gateways)) then response == Accepted202
          else var refused := publish(|published|);
               && refused != Accepted && (refused == Rejected ==> response == NotAcceptable406)
               && (refused == QueueFull ==> response == Unavailable503) && (refused == PublishError ==> response == Error500))
  {
    published, called := [], [];
    if !device.enabled {
      return NotAcceptable406, [], [];
    }
    var targets := [device.name];
    for i := 0 to |gateways|
      invariant targets == Targets(device, gateways[..i])
      invariant !HasExternal(gateways[..i])
    {
      var gateway := gateways[i];
      assert gateways[..i + 1][..i] == gateways[..i];
      if !gateway.enabled {
        continue;
      }
      if gateway.commands != [] {
        assert IsExternal(gateways[i]);
        called := [gateway.commands[|gateway.commands| - 1]];
        if callExternal(called[0]) {
          return Ok200, [], called;
        }
        return NotAcceptable406, [], called;
      }
      targets := targets + [gateway.name];
    }
    assert gateways[..|gateways|] == gateways;
    for i := 0 to |targets|
      invariant published == Events(app, request, targets)[..i]
      invariant forall j: nat :: j < i ==> publish(j) == Accepted
    {
      var ev := EventOf(app, request, targets[i]);
      match publish(i) {
        case Accepted => published := published + [ev];
        case Rejected => return NotAcceptable406, published, called;
        case QueueFull => return Unavailable503, published, called;
        case PublishError => return Error500, published, called;
      }
    }
    response := Accepted202;
  }

  // ----- delivery -----

  /** How often a subscription gets the command: once per target that is its gateway, if it wants the command. */
  function Times(mqtt: Mqtt, subs: Subscriptions, app: string, request: Request, targets: seq<string>, l: Loc): nat {
    if l in subs && Wants(mqtt, l, subs[l], CommandFor(app, request, l.gateway)) then multiset(targets)[l.gateway] else 0
  }

  /** The deliveries are as many as they should be, for every subscription. */
  ghost predicate Counted(mqtt: Mqtt, subs: Subscriptions, app: string, request: Request, targets: seq<string>,
                          order: seq<Loc>)
  {
    forall l :: multiset(order)[l] == Times(mqtt, subs, app, request, targets, l)
  }

  function Sent(app: string, request: Request, order: seq<Loc>): seq<(Loc, Command)> {
    seq(|order|, i requires 0 <= i < |order| => (order[i], CommandFor(app, request, order[i].gateway)))
  }

  lemma {:induction false} EnumeratedOnce<T>(s: seq<T>, xs: set<T>, x: T)
    requires Enumerates(s, xs)
    ensures multiset(s)[x] == if x in xs then 1 else 0
  {
    if s != [] {
      var n := |s| - 1;
      assert s == s[..n] + [s[n]];
      EnumeratedOnce(s[..n], xs - {s[n]}, x);
    }
  }

  lemma EqualCountTwice<T>(s: seq<T>, i: nat, j: nat)
    requires i < j < |s|
    ensures s[i] == s[j] ==> multiset(s)[s[i]] >= 2
  {
    assert s == s[..j] + s[j..];
    assert s[i] in s[..j] && s[j] in s[j..];
    assert multiset(s[..j])[s[i]] >= 1 && multiset(s[j..])[s[j]] >= 1;
  }

  lemma OnceIsEnumerated<T>(s: seq<T>, xs: set<T>)
    requires forall x :: multiset(s)[x] == if x in xs then 1 else 0
    ensures Enumerates(s, xs)
  {
    forall i, j | 0 <= i < j < |s| ensures s[i] != s[j] {
      EqualCountTwice(s, i, j);
    }
    forall x ensures x in s <==> x in xs {
      assert x in s <==> x in multiset(s);
    }
  }

  lemma NextTarget(mqtt: Mqtt, subs: Subscriptions, app: string, request: Request, targets: seq<string>, i: nat,
                   order: seq<Loc>, more: seq<Loc>)
    requires i < |targets|
    requires Counted(mqtt, subs, app, request, targets[..i], order)
    requires Enumerates(more, Receivers(mqtt, subs, CommandFor(app, request, targets[i])))
    ensures Counted(mqtt, subs, app, request, targets[..i + 1], order + more)
    ensures Sent(app, request, order + more) ==
      Sent(app, request, order) + Deliveries(more, CommandFor(app, request, targets[i]))
  {
    assert targets[..i + 1] == targets[..i] + [targets[i]];
    forall l ensures multiset(order + more)[l] == Times(mqtt, subs, app, request, targets[..i + 1], l) {
      EnumeratedOnce(more, Receivers(mqtt, subs, CommandFor(app, request, targets[i])), l);
    }
    forall j | 0 <= j < |more| ensures more[j].gateway == targets[i] {
      assert more[j] in more;
    }
  }

  /** The receiving side: every event that arrives is turned into a command and dispatched. Of the events of one request
      each subscription gets those for its gateway that it wants, and no other does. */
  method DeliverAll(d: Dispatcher, events: seq<CloudEvent>, ghost app: string, ghost request: Request,
                    ghost targets: seq<string>, ghost subs: Subscriptions)
    returns (ghost order: seq<Loc>)
    requires Represents(d.Value(), subs) && events == Events(app, request, targets)
    modifies d`sent
    ensures d.sent == old(d.sent) + Sent(app, request, order)
    ensures Counted(d.mqtt, subs, app, request, targets, order)
  {
    order := [];
    assert targets[..0] == [];
    for i := 0 to |events|
      invariant d.sent == old(d.sent) + Sent(app, request, order)
      invariant Counted(d.mqtt, subs, app, request, targets[..i], order)
    {
      EventRoundTrip(app, request, targets[i]);
      var msg := CommandFromEvent(events[i]);
      if msg.Ok? {
        var _, more := d.Send(msg.value, subs);
        NextTarget(d.mqtt, subs, app, request, targets, i, order, more);
        order := order + more;
      }
    }
    assert targets[..|targets|] == targets;
  }

  // ----- end to end -----

  /** The subscription is for the device itself or one of its enabled gateways, and wants the command. */
  predicate IsFor(mqtt: Mqtt, subs: Subscriptions, app: string, request: Request, device: Device, gateways: seq<Device>,
                  l: Loc)
  {
    && l in subs && l.app == app
    && (l.gateway == device.name
        || exists i :: 0 <= i < |gateways| && gateways[i].enabled && gateways[i].name == l.gateway)
    && (l.device.None? || l.device.value == request.device)
    && Passes(mqtt, subs[l], request.command)
  }

  /** With distinct targets, these are the subscriptions that get the command, once each. */
  lemma {:induction false} WhoIsReached(mqtt: Mqtt, subs: Subscriptions, app: string, request: Request, device: Device,
                                        gateways: seq<Device>, l: Loc)
    requires Distinct(Targets(device, gateways))
    ensures Times(mqtt, subs, app, request, Targets(device, gateways), l) ==
      if IsFor(mqtt, subs, app, request, device, gateways, l) then 1 else 0
  {
    var targets := Targets(device, gateways);
    TargetsAre(device, gateways, l.gateway);
    EnumeratedOnce(targets, Elements(targets), l.gateway);
  }

  lemma {:induction false} TargetsAre(device: Device, gateways: seq<Device>, name: string)
    ensures name in Targets(device, gateways) <==>
      name == device.name || exists i :: 0 <= i < |gateways| && gateways[i].enabled && gateways[i].name == name
  {
    if gateways != [] {
      var n := |gateways| - 1;
      TargetsAre(device, gateways[..n], name);
      if i :| 0 <= i < |gateways| && gateways[i].enabled && gateways[i].name == name {
        assert i < n ==> gateways[..n][i].name == name;
      }
    }
  }

  /** From the request to the channels: what is published is delivered to the dispatcher. Nothing is sent for a disabled
      device, or if an enabled gateway has an external command. Otherwise each subscription gets the command once per
      target that accepted it and is its gateway, if it wants it: up to the first refusal, and if there is none and the
      targets are distinct, exactly the subscriptions for the device or an enabled gateway get it, once each. */
  method HandleRequest(d: Dispatcher, app: string, device: Device, gateways: seq<Device>, request: Request,
                       publish: nat -> PublishOutcome, callExternal: External -> bool, ghost subs: Subscriptions)
    returns (response: Response, ghost n: nat, ghost order: seq<Loc>)
    requires Represents(d.Value(), subs)
    modifies d`sent
    ensures d.sent == old(d.sent) + Sent(app, request, order)
    ensures !device.enabled || HasExternal(gateways) ==> order == []
    ensures device.enabled && !HasExternal(gateways) ==>
      var targets := Targets(device, gateways);
      && n <= |targets| && (response == Accepted202 <==> n == |targets|)
      && (forall i: nat :: i < n ==> publish(i) == Accepted) && (n < |targets| ==> publish(n) != Accepted)
      && Counted(d.mqtt, subs, app, request, targets[..n], order)
    ensures device.enabled && !HasExternal(gateways) && response == Accepted202 && Distinct(Targets(device, gateways)) ==>
      Enumerates(order, set l | l in subs && IsFor(d.mqtt, subs, app, request, device, gateways, l))
  {
    var published, called;
    response, published, called := ProcessCommand(app, device, gateways, request, publish, callExternal);
    n := |published|;
    ghost var targets := if device.enabled && !HasExternal(gateways) then Targets(device, gateways)[..n] else [];
    assert published == Events(app, request, targets);
    order := DeliverAll(d, published, app, request, targets, subs);
    NobodyIsReached(order);
    if device.enabled && !HasExternal(gateways) && response == Accepted202 && Distinct(Targets(device, gateways)) {
      assert Targets(device, gateways)[..n] == Targets(device, gateways);
      ghost var reached := set l | l in subs && IsFor(d.mqtt, subs, app, request, device, gateways, l);
      forall l ensures multiset(order)[l] == if l in reached then 1 else 0 {
        WhoIsReached(d.mqtt, subs, app, request, device, gateways, l);
      }
      OnceIsEnumerated(order, reached);
    }
  }

  lemma NobodyIsReached(order: seq<Loc>)
    ensures order == [] || exists l :: multiset(order)[l] > 0
  {
    if order != [] {
      assert multiset(order)[order[0]] > 0;
    }
  }
}
