/** The command dispatcher: two nested hash maps that index the live subscriptions. */
module Commands {
  import opened Common

  /** MQTT topic names and filters: which are valid, and which name matches which filter. */
  datatype Mqtt = Mqtt(validFilter: string -> bool, validName: string -> bool, isMatch: (string, string) -> bool)

  datatype NameFilter = Always | Never | Topic(filter: string)

  /** An invalid filter is accepted silently, and never matches. */
  function NameFilterOf(mqtt: Mqtt, filter: Option<string>): NameFilter {
    match filter
    case None => Always
    case Some(f) => if mqtt.validFilter(f) then Topic(f) else Never
  }

  predicate Passes(mqtt: Mqtt, filter: NameFilter, command: string) {
    match filter
    case Always => true
    case Never => false
    case Topic(f) => mqtt.validName(command) && mqtt.isMatch(f, command)
  }

  datatype Address = Address(app: string, gateway: string, device: string)

  datatype Gateway = Gateway(app: string, name: string)

  datatype Command = Command(address: Address, command: string, payload: Option<seq<int>>)

  datatype CommandFilter = CommandFilter(application: string, gateway: string, device: Option<string>, commandFilter: Option<string>)

  /** A device that is its own gateway counts as the gateway. */
  function Normalized(f: CommandFilter): CommandFilter {
    if f.device == Some(f.gateway) then f.(device := None) else f
  }

  datatype Handle = Handle(filter: CommandFilter, id: nat)

  // ----- the index -----

  type Entries<K> = map<K, map<nat, NameFilter>>

  datatype Index = Index(devices: Entries<Address>, wildcards: Entries<Gateway>)

  function AddEntry<K>(m: Entries<K>, k: K, id: nat, v: NameFilter): Entries<K> {
    m[k := (if k in m then m[k] else map[])[id := v]]
  }

  function RemoveEntry<K>(m: Entries<K>, k: K, id: nat): Entries<K> {
    if k !in m then m
    else
      var inner := m[k] - {id};
      if inner == map[] then m - {k} else m[k := inner]
  }

  function AddressOf(f: CommandFilter): Address
    requires f.device.Some?
  {
    Address(f.application, f.gateway, f.device.value)
  }

  function GatewayOf(f: CommandFilter): Gateway {
    Gateway(f.application, f.gateway)
  }

  /** The inner map in which a subscription with this filter belongs. */
  function Bucket(ix: Index, f: CommandFilter): map<nat, NameFilter> {
    if f.device.Some? then if AddressOf(f) in ix.devices then ix.devices[AddressOf(f)] else map[]
    else if GatewayOf(f) in ix.wildcards then ix.wildcards[GatewayOf(f)] else map[]
  }

  function Subscribed(ix: Index, f: CommandFilter, id: nat, v: NameFilter): Index {
    if f.device.Some? then ix.(devices := AddEntry(ix.devices, AddressOf(f), id, v))
    else ix.(wildcards := AddEntry(ix.wildcards, GatewayOf(f), id, v))
  }

  function Unsubscribed(ix: Index, h: Handle): Index {
    if h.filter.device.Some? then ix.(devices := RemoveEntry(ix.devices, AddressOf(h.filter), h.id))
    else ix.(wildcards := RemoveEntry(ix.wildcards, GatewayOf(h.filter), h.id))
  }

  // ----- what the index stands for -----

  /** A live subscription: whose commands it wants, and its id. */
  datatype Loc = Loc(app: string, gateway: string, device: Option<string>, id: nat)

  type Subscriptions = map<Loc, NameFilter>

  function LocOf(h: Handle): Loc {
    Loc(h.filter.application, h.filter.gateway, h.filter.device, h.id)
  }

  function Stored(ix: Index, l: Loc): Option<NameFilter> {
    var bucket := Bucket(ix, CommandFilter(l.app, l.gateway, l.device, None));
    if l.id in bucket then Some(bucket[l.id]) else None
  }

  predicate NoEmpty<K>(m: Entries<K>) {
    forall k :: k in m ==> m[k] != map[]
  }

  /** The index holds exactly these subscriptions, and no empty inner map. */
  ghost predicate Represents(ix: Index, subs: Subscriptions) {
    && (forall l :: Stored(ix, l) == if l in subs then Some(subs[l]) else None)
    && NoEmpty(ix.devices) && NoEmpty(ix.wildcards)
  }

  /** The subscription wants the command. */
  predicate Wants(mqtt: Mqtt, l: Loc, filter: NameFilter, msg: Command) {
    && l.app == msg.address.app && l.gateway == msg.address.gateway
    && (l.device.None? || l.device.value == msg.address.device)
    && Passes(mqtt, filter, msg.command)
  }

  function Receivers(mqtt: Mqtt, subs: Subscriptions, msg: Command): set<Loc> {
    set l | l in subs && Wants(mqtt, l, subs[l], msg)
  }

  // ----- the dispatcher -----

  class Dispatcher {
    const mqtt: Mqtt
    var devices: Entries<Address>
    var wildcards: Entries<Gateway>
    /** What was put into the channels, and into which. */
    var sent: seq<(Loc, Command)>

    constructor (mqtt: Mqtt)
      ensures this.mqtt == mqtt && Value() == Index(map[], map[]) && sent == []
    {
      this.mqtt := mqtt;
      devices, wildcards, sent := map[], map[], [];
    }

    function Value(): Index
      reads this
    {
      Index(devices, wildcards)
    }

    /** Stands for drawing random ids until one is free. */
    static method FreeId(used: map<nat, NameFilter>) returns (id: nat)
      ensures id !in used
    {
      FreeIdExists(used.Keys);
      id :| id !in used;
    }

    method Subscribe(filter: CommandFilter) returns (handle: Handle)
      modifies this
      ensures handle.filter == Normalized(filter)
      ensures handle.id !in Bucket(old(Value()), handle.filter)
      ensures Value() == Subscribed(old(Value()), handle.filter, handle.id, NameFilterOf(mqtt, filter.commandFilter))
      ensures sent == old(sent)
    {
      var target := NameFilterOf(mqtt, filter.commandFilter);
      var f := filter;
      if filter.device == Some(filter.gateway) {
        f := filter.(device := None);
      }
      var id := FreeId(Bucket(Value(), f));
      if f.device.Some? {
        var address := Address(f.application, f.gateway, f.device.value);
        var inner := if address in devices then devices[address] else map[];
        devices := devices[address := inner[id := target]];
      } else {
        var gateway := Gateway(f.application, f.gateway);
        var inner := if gateway in wildcards then wildcards[gateway] else map[];
        wildcards := wildcards[gateway := inner[id := target]];
      }
      handle := Handle(f, id);
    }

    method Unsubscribe(handle: Handle)
      modifies this
      ensures Value() == Unsubscribed(old(Value()), handle)
      ensures sent == old(sent)
    {
      var f := handle.filter;
      if f.device.Some? {
        var address := Address(f.application, f.gateway, f.device.value);
        if address in devices {
          var inner := devices[address] - {handle.id};
          if inner == map[] {
            devices := devices - {address};
          } else {
            devices := devices[address := inner];
          }
        }
      } else {
        var gateway := Gateway(f.application, f.gateway);
        if gateway in wildcards {
          var inner := wildcards[gateway] - {handle.id};
          if inner == map[] {
            wildcards := wildcards - {gateway};
          } else {
            wildcards := wildcards[gateway := inner];
          }
        }
      }
    }

    /** Sends to the targets of one inner map, in the order of the hash map. */
    method Dispatch(targets: map<nat, NameFilter>, device: Option<string>, msg: Command)
      returns (num: nat, ghost order: seq<Loc>)
      modifies this`sent
      ensures sent == old(sent) + Deliveries(order, msg) && num == |order|
      ensures Enumerates(order, BucketReceivers(mqtt, targets, device, msg))
    {
      num, order := 0, [];
      var todo := targets.Keys;
      while todo != {}
        invariant todo <= targets.Keys
        invariant sent == old(sent) + Deliveries(order, msg) && num == |order|
        invariant Enumerates(order, BucketReceivers(mqtt, targets - todo, device, msg))
      {
        var id :| id in todo;
        OneMoreTarget(mqtt, targets, device, msg, todo, id);
        todo := todo - {id};
        if Passes(mqtt, targets[id], msg.command) {
          num := num + 1;
          var l := Loc(msg.address.app, msg.address.gateway, device, id);
          sent := sent + [(l, msg)];
          order := order + [l];
        }
      }
      assert targets - todo == targets;
    }

    /** Every subscription that wants the command gets it, once, and no other. */
    method Send(msg: Command, ghost subs: Subscriptions) returns (num: nat, ghost order: seq<Loc>)
      requires Represents(Value(), subs)
      modifies this`sent
      ensures sent == old(sent) + Deliveries(order, msg) && num == |order|
      ensures Enumerates(order, Receivers(mqtt, subs, msg))
    {
      num, order := 0, [];
      var a := msg.address;
      ghost var inDevices: seq<Loc> := [];
      if a in devices {
        var n;
        n, inDevices := Dispatch(devices[a], Some(a.device), msg);
        num := num + n;
      }
      ghost var inWildcards: seq<Loc> := [];
      var g := Gateway(a.app, a.gateway);
      if g in wildcards {
        var n;
        n, inWildcards := Dispatch(wildcards[g], None, msg);
        num := num + n;
      }
      order := inDevices + inWildcards;
      BothBuckets(mqtt, Value(), subs, msg, inDevices, inWildcards);
    }
  }

  function Deliveries(order: seq<Loc>, msg: Command): seq<(Loc, Command)> {
    seq(|order|, i requires 0 <= i < |order| => (order[i], msg))
  }

  /** The targets of one inner map that want the command. */
  function BucketReceivers(mqtt: Mqtt, targets: map<nat, NameFilter>, device: Option<string>, msg: Command): set<Loc> {
    set id | id in targets && Passes(mqtt, targets[id], msg.command) :: Loc(msg.address.app, msg.address.gateway, device, id)
  }

  lemma OneMoreTarget(mqtt: Mqtt, targets: map<nat, NameFilter>, device: Option<string>, msg: Command, todo: set<nat>, id: nat)
    requires todo <= targets.Keys && id in todo
    ensures var l := Loc(msg.address.app, msg.address.gateway, device, id);
      && l !in BucketReceivers(mqtt, targets - todo, device, msg)
      && BucketReceivers(mqtt, targets - (todo - {id}), device, msg)
         == BucketReceivers(mqtt, targets - todo, device, msg) + if Passes(mqtt, targets[id], msg.command) then {l} else {}
  {
    assert forall i :: i in targets - (todo - {id}) <==> i in targets - todo || i == id;
  }

  lemma FreeIdExists(used: set<nat>)
    ensures exists id: nat :: id !in used
  {
    var id := Above(used);
    assert id !in used;
  }

  lemma Above(used: set<nat>) returns (top: nat)
    ensures forall id :: id in used ==> id < top
    decreases |used|
  {
    top := 0;
    if used != {} {
      var id :| id in used;
      var rest := Above(used - {id});
      top := if rest > id then rest else id + 1;
      assert forall i :: i in used ==> i == id || i in used - {id};
    }
  }

  lemma BothBuckets(mqtt: Mqtt, ix: Index, subs: Subscriptions, msg: Command, inDevices: seq<Loc>, inWildcards: seq<Loc>)
    requires Represents(ix, subs)
    requires var a := msg.address; Enumerates(inDevices,
      BucketReceivers(mqtt, if a in ix.devices then ix.devices[a] else map[], Some(a.device), msg))
    requires var g := Gateway(msg.address.app, msg.address.gateway); Enumerates(inWildcards,
      BucketReceivers(mqtt, if g in ix.wildcards then ix.wildcards[g] else map[], None, msg))
    ensures Enumerates(inDevices + inWildcards, Receivers(mqtt, subs, msg))
    ensures Deliveries(inDevices + inWildcards, msg) == Deliveries(inDevices, msg) + Deliveries(inWildcards, msg)
  {
    var a := msg.address;
    var d := BucketReceivers(mqtt, if a in ix.devices then ix.devices[a] else map[], Some(a.device), msg);
    var w := BucketReceivers(mqtt,
      if Gateway(a.app, a.gateway) in ix.wildcards then ix.wildcards[Gateway(a.app, a.gateway)] else map[], None, msg);
    forall l ensures l in Receivers(mqtt, subs, msg) <==> l in d || l in w {
      assert Stored(ix, l) == if l in subs then Some(subs[l]) else None;
      if l in Receivers(mqtt, subs, msg) {
        assert l == Loc(a.app, a.gateway, l.device, l.id);
      }
    }
    forall l | l in Receivers(mqtt, subs, msg) ensures l in inDevices + inWildcards {
      assert l in d ==> l in inDevices;
      assert l in w ==> l in inWildcards;
    }
    forall l | l in inDevices + inWildcards ensures l in Receivers(mqtt, subs, msg) {
      assert l in inDevices ==> l in d;
      assert l in inWildcards ==> l in w;
    }
    forall i, j | 0 <= i < |inDevices| && 0 <= j < |inWildcards| ensures inDevices[i] != inWildcards[j] {
      assert inDevices[i] in d && inWildcards[j] in w;
    }
  }

  // ----- refinement of the plain list -----

  function EntryAt<K>(m: Entries<K>, k: K, id: nat): Option<NameFilter> {
    if k in m && id in m[k] then Some(m[k][id]) else None
  }

  lemma AddEntryAt<K>(m: Entries<K>, k: K, id: nat, v: NameFilter, l: K, i: nat)
    ensures EntryAt(AddEntry(m, k, id, v), l, i) == if l == k && i == id then Some(v) else EntryAt(m, l, i)
  {
  }

  lemma RemoveEntryAt<K>(m: Entries<K>, k: K, id: nat, l: K, i: nat)
    ensures EntryAt(RemoveEntry(m, k, id), l, i) == if l == k && i == id then None else EntryAt(m, l, i)
  {
    if k in m {
      assert i in m[k] && i != id ==> i in m[k] - {id};
    }
  }

  lemma NoEmptyIsKept<K>(m: Entries<K>, k: K, id: nat, v: NameFilter)
    requires NoEmpty(m)
    ensures NoEmpty(AddEntry(m, k, id, v)) && NoEmpty(RemoveEntry(m, k, id))
  {
    assert id in AddEntry(m, k, id, v)[k];
  }

  lemma StoredIsEntry(ix: Index, l: Loc)
    ensures Stored(ix, l) == match l.device
      case Some(device) => EntryAt(ix.devices, Address(l.app, l.gateway, device), l.id)
      case None => EntryAt(ix.wildcards, Gateway(l.app, l.gateway), l.id)
  {
  }

  lemma {:induction false} SubscribeRefines(ix: Index, subs: Subscriptions, f: CommandFilter, id: nat, v: NameFilter)
    requires Represents(ix, subs) && id !in Bucket(ix, f)
    ensures Represents(Subscribed(ix, f, id, v), subs[LocOf(Handle(f, id)) := v])
    ensures LocOf(Handle(f, id)) !in subs
  {
    var ix' := Subscribed(ix, f, id, v);
    var l0 := LocOf(Handle(f, id));
    assert Stored(ix, l0) == None;
    forall l ensures Stored(ix', l) == if l == l0 then Some(v) else Stored(ix, l) {
      StoredIsEntry(ix, l);
      StoredIsEntry(ix', l);
      match (f.device, l.device)
      case (Some(_), Some(device)) => AddEntryAt(ix.devices, AddressOf(f), id, v, Address(l.app, l.gateway, device), l.id);
      case (None, None) => AddEntryAt(ix.wildcards, GatewayOf(f), id, v, Gateway(l.app, l.gateway), l.id);
      case _ =>
    }
    if f.device.Some? {
      NoEmptyIsKept(ix.devices, AddressOf(f), id, v);
    } else {
      NoEmptyIsKept(ix.wildcards, GatewayOf(f), id, v);
    }
  }

  lemma UnsubscribeRefines(ix: Index, subs: Subscriptions, h: Handle)
    requires Represents(ix, subs)
    ensures Represents(Unsubscribed(ix, h), subs - {LocOf(h)})
  {
    var ix' := Unsubscribed(ix, h);
    var f := h.filter;
    forall l ensures Stored(ix', l) == if l == LocOf(h) then None else Stored(ix, l) {
      StoredIsEntry(ix, l);
      StoredIsEntry(ix', l);
      match (f.device, l.device)
      case (Some(_), Some(device)) => RemoveEntryAt(ix.devices, AddressOf(f), h.id, Address(l.app, l.gateway, device), l.id);
      case (None, None) => RemoveEntryAt(ix.wildcards, GatewayOf(f), h.id, Gateway(l.app, l.gateway), l.id);
      case _ =>
    }
    if f.device.Some? {
      NoEmptyIsKept(ix.devices, AddressOf(f), h.id, Always);
    } else {
      NoEmptyIsKept(ix.wildcards, GatewayOf(f), h.id, Always);
    }
  }

  /** The index is determined by what it stands for. So whatever else happens in between, unsubscribing
      leaves the very maps that would be there without the subscription. */
  lemma IndexIsCanonical(ix: Index, ix': Index, subs: Subscriptions)
    requires Represents(ix, subs) && Represents(ix', subs)
    ensures ix == ix'
  {
    forall f: CommandFilter ensures Bucket(ix, f) == Bucket(ix', f) {
      forall id ensures (id in Bucket(ix, f) <==> id in Bucket(ix', f))
        && (id in Bucket(ix, f) ==> Bucket(ix, f)[id] == Bucket(ix', f)[id])
      {
        var l := Loc(f.application, f.gateway, f.device, id);
        assert Stored(ix, l) == Stored(ix', l);
        assert Bucket(ix, f) == Bucket(ix, f.(commandFilter := None)) && Bucket(ix', f) == Bucket(ix', f.(commandFilter := None));
      }
    }
    SameDevices(ix, ix');
    SameWildcards(ix, ix');
  }

  lemma SameDevices(ix: Index, ix': Index)
    requires forall f: CommandFilter :: Bucket(ix, f) == Bucket(ix', f)
    requires NoEmpty(ix.devices) && NoEmpty(ix'.devices)
    ensures ix.devices == ix'.devices
  {
    forall a: Address ensures (a in ix.devices <==> a in ix'.devices) && (a in ix.devices ==> ix.devices[a] == ix'.devices[a]) {
      var f := CommandFilter(a.app, a.gateway, Some(a.device), None);
      assert AddressOf(f) == a && Bucket(ix, f) == Bucket(ix', f);
    }
  }

  lemma SameWildcards(ix: Index, ix': Index)
    requires forall f: CommandFilter :: Bucket(ix, f) == Bucket(ix', f)
    requires NoEmpty(ix.wildcards) && NoEmpty(ix'.wildcards)
    ensures ix.wildcards == ix'.wildcards
  {
    forall g: Gateway ensures (g in ix.wildcards <==> g in ix'.wildcards) && (g in ix.wildcards ==> ix.wildcards[g] == ix'.wildcards[g]) {
      var f := CommandFilter(g.app, g.name, None, None);
      assert GatewayOf(f) == g && Bucket(ix, f) == Bucket(ix', f);
    }
  }

  datatype Step = Subscribe(filter: CommandFilter, id: nat, target: NameFilter) | Unsubscribe(handle: Handle)

  /** A subscription under an id that is taken does not happen. */
  function Apply(ix: Index, step: Step): Index {
    match step
    case Subscribe(f, id, v) => if id in Bucket(ix, Normalized(f)) then ix else Subscribed(ix, Normalized(f), id, v)
    case Unsubscribe(h) => Unsubscribed(ix, h)
  }

  /** The same on the plain list of subscriptions. */
  function ApplyPlain(subs: Subscriptions, step: Step): Subscriptions {
    match step
    case Subscribe(f, id, v) => if LocOf(Handle(Normalized(f), id)) in subs then subs else subs[LocOf(Handle(Normalized(f), id)) := v]
    case Unsubscribe(h) => subs - {LocOf(h)}
  }

  function Run(ix: Index, steps: seq<Step>): Index {
    if steps == [] then ix else Apply(Run(ix, steps[..|steps| - 1]), steps[|steps| - 1])
  }

  function RunPlain(subs: Subscriptions, steps: seq<Step>): Subscriptions {
    if steps == [] then subs else ApplyPlain(RunPlain(subs, steps[..|steps| - 1]), steps[|steps| - 1])
  }

  lemma StepRefines(ix: Index, subs: Subscriptions, step: Step)
    requires Represents(ix, subs)
    ensures Represents(Apply(ix, step), ApplyPlain(subs, step))
  {
    match step
    case Subscribe(f, id, v) =>
      assert Stored(ix, LocOf(Handle(Normalized(f), id))).Some? <==> id in Bucket(ix, Normalized(f));
      if id !in Bucket(ix, Normalized(f)) {
        SubscribeRefines(ix, subs, Normalized(f), id, v);
      }
    case Unsubscribe(h) => UnsubscribeRefines(ix, subs, h);
  }

  /** After any interleaving, the two-map index stands for the plain list of live subscriptions, and no
      empty inner map remains. */
  lemma {:induction false} IndexRefinesList(ix: Index, subs: Subscriptions, steps: seq<Step>)
    requires Represents(ix, subs)
    ensures Represents(Run(ix, steps), RunPlain(subs, steps))
  {
    if steps != [] {
      var n := |steps| - 1;
      IndexRefinesList(ix, subs, steps[..n]);
      StepRefines(Run(ix, steps[..n]), RunPlain(subs, steps[..n]), steps[n]);
    }
  }

  /** In particular from the start, when both are empty. */
  lemma {:induction false} EveryIndexRefinesList(steps: seq<Step>)
    ensures Represents(Run(Index(map[], map[]), steps), RunPlain(map[], steps))
  {
    IndexRefinesList(Index(map[], map[]), map[], steps);
  }

  // ----- what a subscriber asked for -----

  /** The caller of `subscribe` wants the command: application and gateway agree, its device is absent, is the gateway, or is
      the one of the command, and its name filter is absent, or is valid and matches a valid command name. */
  predicate Asked(mqtt: Mqtt, filter: CommandFilter, msg: Command) {
    && filter.application == msg.address.app && filter.gateway == msg.address.gateway
    && (filter.device == None || filter.device == Some(filter.gateway) || filter.device == Some(msg.address.device))
    && (filter.commandFilter == None
        || (&& mqtt.validFilter(filter.commandFilter.value) && mqtt.validName(msg.command)
            && mqtt.isMatch(filter.commandFilter.value, msg.command)))
  }

  lemma SubscriptionWants(mqtt: Mqtt, filter: CommandFilter, id: nat, msg: Command)
    ensures Wants(mqtt, LocOf(Handle(Normalized(filter), id)), NameFilterOf(mqtt, filter.commandFilter), msg) <==>
      Asked(mqtt, filter, msg)
  {
  }

  /** Subscribing makes the dispatcher send to the new subscription exactly what its caller asked for, and changes
      nothing for the others. */
  method SubscribeAndSend(d: Dispatcher, filter: CommandFilter, msg: Command, ghost subs: Subscriptions)
    returns (handle: Handle, num: nat, ghost order: seq<Loc>)
    requires Represents(d.Value(), subs)
    modifies d
    ensures LocOf(handle) !in subs
    ensures d.sent == old(d.sent) + Deliveries(order, msg) && num == |order|
    ensures Enumerates(order, Receivers(d.mqtt, subs, msg) + if Asked(d.mqtt, filter, msg) then {LocOf(handle)} else {})
  {
    ghost var before := d.Value();
    handle := d.Subscribe(filter);
    ghost var target := NameFilterOf(d.mqtt, filter.commandFilter);
    SubscribeRefines(before, subs, handle.filter, handle.id, target);
    ghost var all := subs[LocOf(handle) := target];
    num, order := d.Send(msg, all);
    SubscriptionWants(d.mqtt, filter, handle.id, msg);
    assert Receivers(d.mqtt, all, msg) ==
      Receivers(d.mqtt, subs, msg) + if Asked(d.mqtt, filter, msg) then {LocOf(handle)} else {};
  }

  /** The step does not concern this place. */
  predicate Elsewhere(step: Step, l: Loc) {
    match step
    case Subscribe(f, id, _) => LocOf(Handle(Normalized(f), id)) != l
    case Unsubscribe(h) => LocOf(h) != l
  }

  lemma StepCommutes(subs: Subscriptions, l: Loc, v: NameFilter, step: Step)
    requires l !in subs && Elsewhere(step, l)
    ensures l !in ApplyPlain(subs, step) && ApplyPlain(subs[l := v], step) == ApplyPlain(subs, step)[l := v]
  {
  }

  lemma {:induction false} OthersDoNotInterfere(subs: Subscriptions, l: Loc, v: NameFilter, steps: seq<Step>)
    requires l !in subs && forall i :: 0 <= i < |steps| ==> Elsewhere(steps[i], l)
    ensures l !in RunPlain(subs, steps) && RunPlain(subs[l := v], steps) == RunPlain(subs, steps)[l := v]
  {
    if steps != [] {
      var n := |steps| - 1;
      OthersDoNotInterfere(subs, l, v, steps[..n]);
      StepCommutes(RunPlain(subs, steps[..n]), l, v, steps[n]);
    }
  }

  /** And so it stays, whatever other subscriptions come and go: until it is removed, a subscription is among the receivers
      of a command exactly if its caller asked for it. */
  lemma {:induction false} SubscriberIsReached(mqtt: Mqtt, subs: Subscriptions, filter: CommandFilter, id: nat,
                                               between: seq<Step>, msg: Command)
    requires var l := LocOf(Handle(Normalized(filter), id));
      l !in subs && forall i :: 0 <= i < |between| ==> Elsewhere(between[i], l)
    ensures var first := ApplyPlain(subs, Subscribe(filter, id, NameFilterOf(mqtt, filter.commandFilter)));
      LocOf(Handle(Normalized(filter), id)) in Receivers(mqtt, RunPlain(first, between), msg) <==> Asked(mqtt, filter, msg)
  {
    var l, v := LocOf(Handle(Normalized(filter), id)), NameFilterOf(mqtt, filter.commandFilter);
    OthersDoNotInterfere(subs, l, v, between);
    SubscriptionWants(mqtt, filter, id, msg);
  }

  /** Unsubscribing undoes the subscription, whatever other subscriptions come and go in between: it leaves
      the very maps of the run without it. */
  lemma {:induction false} UnsubscribeUndoesSubscribe(ix: Index, subs: Subscriptions, f: CommandFilter, id: nat, v: NameFilter, between: seq<Step>)
    requires Represents(ix, subs) && id !in Bucket(ix, Normalized(f))
    requires forall i :: 0 <= i < |between| ==> Elsewhere(between[i], LocOf(Handle(Normalized(f), id)))
    ensures Unsubscribed(Run(Apply(ix, Subscribe(f, id, v)), between), Handle(Normalized(f), id)) == Run(ix, between)
  {
    var h := Handle(Normalized(f), id);
    var l := LocOf(h);
    var with_ := Apply(ix, Subscribe(f, id, v));
    assert l !in subs && Represents(with_, subs[l := v]) by {
      SubscribeRefines(ix, subs, Normalized(f), id, v);
    }
    OthersDoNotInterfere(subs, l, v, between);
    assert Represents(Run(with_, between), RunPlain(subs, between)[l := v]) by {
      IndexRefinesList(with_, subs[l := v], between);
    }
    assert Represents(Run(ix, between), RunPlain(subs, between)) by {
      IndexRefinesList(ix, subs, between);
    }
    RemovalIsCanonical(Run(with_, between), Run(ix, between), RunPlain(subs, between), h, v);
  }

  lemma RemovalIsCanonical(ix: Index, ix': Index, subs: Subscriptions, h: Handle, v: NameFilter)
    requires LocOf(h) !in subs && Represents(ix, subs[LocOf(h) := v]) && Represents(ix', subs)
    ensures Unsubscribed(ix, h) == ix'
  {
    UnsubscribeRefines(ix, subs[LocOf(h) := v], h);
    assert subs[LocOf(h) := v] - {LocOf(h)} == subs;
    IndexIsCanonical(Unsubscribed(ix, h), ix', subs);
  }
}
