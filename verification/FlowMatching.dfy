/** Joining publisher flows with packet-derived flows by an event sweep. */
module FlowMatching {
  import opened Wrappers
  import opened Sorting
  import opened Sets

  const TIME_TOLERANCE_NS := 1000

  datatype FlowKey = FlowKey(sourceVersion: nat, source: seq<nat>, sourcePort: nat,
                             destinationVersion: nat, destination: seq<nat>, destinationPort: nat,
                             protocol: string)

  datatype Counters = Counters(origPackets: Option<nat>, origIpBytes: Option<nat>,
                               respPackets: Option<nat>, respIpBytes: Option<nat>)

  datatype Flow = Flow(key: FlowKey, startNs: int, endNs: int, counters: Counters, category: Option<string>)

  /** The parsers reject a flow that ends before it starts. */
  ghost predicate WellTimed(flows: seq<Flow>) {
    forall i | 0 <= i < |flows| :: flows[i].startNs <= flows[i].endNs
  }

  // ---- What matching means -----------------------------------------------------------

  /** Same key, and the closed interval of `p` widened by the tolerance meets that of `q`. */
  predicate Meets(p: Flow, q: Flow) {
    p.key == q.key && p.startNs - 1000 <= q.endNs && q.startNs <= p.endNs + 1000
  }

  ghost function Pairs(publisher: seq<Flow>, packet: seq<Flow>): set<(nat, nat)> {
    set i: nat, j: nat | i < |publisher| && j < |packet| && Meets(publisher[i], packet[j]) :: (i, j)
  }

  datatype Edges = Edges(publisher: seq<set<nat>>, packet: seq<set<nat>>, count: nat)

  /** The two edge tables are converses of each other, list exactly `pairs`, and count them. */
  ghost predicate Tabulates(e: Edges, pairs: set<(nat, nat)>, n: nat, m: nat) {
    && |e.publisher| == n && |e.packet| == m && e.count == |pairs|
    && (forall i, j | 0 <= i < n :: j in e.publisher[i] <==> (i, j) in pairs)
    && (forall i, j | 0 <= j < m :: i in e.packet[j] <==> (i, j) in pairs)
  }

  // ---- Events ------------------------------------------------------------------------

  /** `kind` 0 starts and 1 ends; `side` 0 is the publisher and 1 the packet capture. */
  datatype Event = Event(time: int, kind: int, side: int, index: nat)

  predicate Before(e: Event, f: Event) {
    || e.time < f.time
    || (e.time == f.time && (e.kind < f.kind
        || (e.kind == f.kind && (e.side < f.side
            || (e.side == f.side && e.index <= f.index)))))
  }

  lemma BeforeIsTotal()
    ensures TotalOrder(Before)
  {
  }

  function Side(publisher: seq<Flow>, packet: seq<Flow>, side: int): seq<Flow> {
    if side == 0 then publisher else packet
  }

  function Tolerance(side: int): int {
    if side == 0 then TIME_TOLERANCE_NS else 0
  }

  function StartOf(flow: Flow, side: int, index: nat): Event {
    Event(flow.startNs - Tolerance(side), 0, side, index)
  }

  function EndOf(flow: Flow, side: int, index: nat): Event {
    Event(flow.endNs + Tolerance(side), 1, side, index)
  }

  /** `e` starts or ends a flow with this key. */
  ghost predicate IsEvent(publisher: seq<Flow>, packet: seq<Flow>, key: FlowKey, e: Event) {
    && (e.side == 0 || e.side == 1)
    && var flows := Side(publisher, packet, e.side);
    && e.index < |flows| && flows[e.index].key == key
    && (e == StartOf(flows[e.index], e.side, e.index) || e == EndOf(flows[e.index], e.side, e.index))
  }

  /** Every event of the key, once each. */
  ghost predicate AllEvents(publisher: seq<Flow>, packet: seq<Flow>, key: FlowKey, events: seq<Event>) {
    && Distinct(events)
    && forall e :: e in events <==> IsEvent(publisher, packet, key, e)
  }

  // ---- Grouping by key ---------------------------------------------------------------

  ghost predicate Grouped(flows: seq<Flow>, byKey: map<FlowKey, seq<nat>>) {
    && (forall k | k in byKey :: Distinct(byKey[k]) && forall i | i in byKey[k] :: i < |flows| && flows[i].key == k)
    && (forall i: nat | i < |flows| :: flows[i].key in byKey && i in byKey[flows[i].key])
  }

  method GroupByKey(flows: seq<Flow>) returns (byKey: map<FlowKey, seq<nat>>)
    ensures Grouped(flows, byKey)
  {
    byKey := map[];
    for index := 0 to |flows|
      invariant Grouped(flows[..index], byKey)
    {
      var key := flows[index].key;
      var before := byKey;
      byKey := byKey[key := (if key in byKey then byKey[key] else []) + [index]];
      forall k | k in byKey
        ensures Distinct(byKey[k]) && forall i | i in byKey[k] :: i < index + 1 && flows[..index + 1][i].key == k
      {
        if k in before {
          assert forall i | i in before[k] :: i < index && flows[..index][i].key == k;
          assert forall a | 0 <= a < |before[k]| :: before[k][a] in before[k];
        }
      }
      forall i: nat | i < index + 1 ensures flows[i].key in byKey && i in byKey[flows[i].key] {
        if i < index {
          assert flows[..index][i].key in before && i in before[flows[..index][i].key];
        }
      }
      assert Grouped(flows[..index + 1], byKey);
    }
    assert flows[..|flows|] == flows;
  }

  method CollectEvents(publisher: seq<Flow>, packet: seq<Flow>, key: FlowKey,
                       ofPublisher: seq<nat>, ofPacket: seq<nat>) returns (events: seq<Event>)
    requires Distinct(ofPublisher) && Distinct(ofPacket)
    requires forall i: nat :: i in ofPublisher <==> i < |publisher| && publisher[i].key == key
    requires forall i: nat :: i in ofPacket <==> i < |packet| && packet[i].key == key
    ensures AllEvents(publisher, packet, key, events)
  {
    events := [];
    events := CollectSide(publisher, 0, ofPublisher);
    var others := CollectSide(packet, 1, ofPacket);
    forall e ensures e in events + others <==> IsEvent(publisher, packet, key, e) {
      assert e in events + others <==> e in events || e in others;
    }
    assert forall a, b | 0 <= a < |events| && 0 <= b < |others| :: events[a] in events && others[b] in others;
    events := events + others;
  }

  method CollectSide(flows: seq<Flow>, side: int, indices: seq<nat>) returns (events: seq<Event>)
    requires Distinct(indices) && forall i | i in indices :: i < |flows|
    ensures Distinct(events)
    ensures forall e :: e in events <==>
      e.index in indices && (e == StartOf(flows[e.index], side, e.index) || e == EndOf(flows[e.index], side, e.index))
  {
    events := [];
    for k := 0 to |indices|
      invariant Distinct(events)
      invariant forall e :: e in events <==>
        e.index in indices[..k] && e.index < |flows| &&
        (e == StartOf(flows[e.index], side, e.index) || e == EndOf(flows[e.index], side, e.index))
    {
      var index := indices[k];
      assert index in indices;
      assert index !in indices[..k];
      var two := [StartOf(flows[index], side, index), EndOf(flows[index], side, index)];
      assert forall a | 0 <= a < |events| :: events[a] in events;
      assert indices[..k + 1] == indices[..k] + [index];
      assert forall e :: e in two <==> e == two[0] || e == two[1];
      assert forall e :: e in events + two <==> e in events || e in two;
      events := events + two;
    }
    assert indices[..|indices|] == indices;
  }

  // ---- The sweep ---------------------------------------------------------------------

  /** The sorted events of one key. */
  ghost predicate Timeline(publisher: seq<Flow>, packet: seq<Flow>, key: FlowKey, events: seq<Event>) {
    && WellTimed(publisher) && WellTimed(packet)
    && AllEvents(publisher, packet, key, events) && Sorted(Before, events)
  }

  ghost predicate Started(publisher: seq<Flow>, packet: seq<Flow>, events: seq<Event>, m: nat, side: int, i: nat)
    requires m <= |events|
  {
    i < |Side(publisher, packet, side)| && StartOf(Side(publisher, packet, side)[i], side, i) in events[..m]
  }

  ghost predicate Ended(publisher: seq<Flow>, packet: seq<Flow>, events: seq<Event>, m: nat, side: int, i: nat)
    requires m <= |events|
  {
    i < |Side(publisher, packet, side)| && EndOf(Side(publisher, packet, side)[i], side, i) in events[..m]
  }

  /** After `m` events `active` holds the flows of the side that have started and not ended. */
  ghost predicate IsActive(publisher: seq<Flow>, packet: seq<Flow>, events: seq<Event>, m: nat, side: int, active: set<nat>)
    requires m <= |events|
  {
    forall i :: i in active <==>
      Started(publisher, packet, events, m, side, i) && !Ended(publisher, packet, events, m, side, i)
  }

  /** The meeting pairs of the key both of whose flows have started within `m` events. */
  ghost predicate StartedPairs(publisher: seq<Flow>, packet: seq<Flow>, events: seq<Event>, m: nat, pairs: set<(nat, nat)>)
    requires m <= |events|
  {
    forall i: nat, j: nat :: (i, j) in pairs <==>
      && Started(publisher, packet, events, m, 0, i) && Started(publisher, packet, events, m, 1, j)
      && Meets(publisher[i], packet[j])
  }

  lemma PrefixMember(events: seq<Event>, m: nat, e: Event)
    requires m < |events|
    ensures e in events[..m + 1] <==> e in events[..m] || e == events[m]
  {
    assert events[..m + 1] == events[..m] + [events[m]];
  }

  /** The event at `m` comes after those before it and before those that are still to come. */
  lemma AtEvent(events: seq<Event>, m: nat, e: Event)
    requires m < |events| && Distinct(events) && Sorted(Before, events) && e in events && e != events[m]
    ensures e in events[..m] <==> Before(e, events[m])
    ensures e !in events[..m] <==> Before(events[m], e)
    ensures events[m] !in events[..m]
  {
    var k :| 0 <= k < |events| && events[k] == e;
    if k < m {
      assert e in events[..m] && Before(e, events[m]);
      if Before(events[m], e) {
        BeforeIsTotal();
      }
    } else {
      assert Before(events[m], e);
      assert forall l | 0 <= l < m :: events[..m][l] != events[k];
      if Before(e, events[m]) {
        BeforeIsTotal();
      }
    }
  }

  /** A started flow of the other side meets the one that starts now exactly if it is active. */
  lemma ActiveMeets(publisher: seq<Flow>, packet: seq<Flow>, key: FlowKey, events: seq<Event>, m: nat, j: nat)
    requires Timeline(publisher, packet, key, events) && m < |events| && events[m].kind == 0
    requires var other := 1 - events[m].side; j < |Side(publisher, packet, other)|
    requires Started(publisher, packet, events, m, 1 - events[m].side, j)
    ensures IsEvent(publisher, packet, key, events[m])
    ensures var side := events[m].side;
            var flow, there := Side(publisher, packet, side)[events[m].index], Side(publisher, packet, 1 - side)[j];
            !Ended(publisher, packet, events, m, 1 - side, j) <==>
            if side == 0 then Meets(flow, there) else Meets(there, flow)
  {
    var e := events[m];
    assert e in events;
    var side := 1 - e.side;
    var there := Side(publisher, packet, side)[j];
    var s, t := StartOf(there, side, j), EndOf(there, side, j);
    assert s in events[..m] && s in events;
    assert IsEvent(publisher, packet, key, s);
    assert IsEvent(publisher, packet, key, t);
    AtEvent(events, m, s);
    AtEvent(events, m, t);
  }

  /** How a start event extends the pairs: by the other side's active flows. */
  function Crossed(side: int, index: nat, others: set<nat>): set<(nat, nat)> {
    if side == 0 then set j | j in others :: (index, j) else set i | i in others :: (i, index)
  }

  lemma StartExtends(publisher: seq<Flow>, packet: seq<Flow>, key: FlowKey, events: seq<Event>, m: nat,
                     others: set<nat>, pairs: set<(nat, nat)>)
    requires Timeline(publisher, packet, key, events) && m < |events| && events[m].kind == 0
    requires IsActive(publisher, packet, events, m, 1 - events[m].side, others)
    requires StartedPairs(publisher, packet, events, m, pairs)
    ensures var e := events[m];
            && StartedPairs(publisher, packet, events, m + 1, pairs + Crossed(e.side, e.index, others))
            && pairs !! Crossed(e.side, e.index, others)
  {
    var e := events[m];
    assert e in events && IsEvent(publisher, packet, key, e);
    AtEventItself(events, m);
    var more := Crossed(e.side, e.index, others);
    forall i: nat, j: nat
      ensures (i, j) in pairs + more <==>
        && Started(publisher, packet, events, m + 1, 0, i) && Started(publisher, packet, events, m + 1, 1, j)
        && Meets(publisher[i], packet[j])
      ensures !((i, j) in pairs && (i, j) in more)
    {
      if i < |publisher| { PrefixMember(events, m, StartOf(publisher[i], 0, i)); }
      if j < |packet| { PrefixMember(events, m, StartOf(packet[j], 1, j)); }
      if e.side == 0 && i == e.index && Started(publisher, packet, events, m, 1, j) {
        ActiveMeets(publisher, packet, key, events, m, j);
      }
      if e.side == 1 && j == e.index && Started(publisher, packet, events, m, 0, i) {
        ActiveMeets(publisher, packet, key, events, m, i);
      }
    }
    forall x ensures !(x in pairs && x in more) {
      assert x == (x.0, x.1);
    }
  }

  lemma AtEventItself(events: seq<Event>, m: nat)
    requires m < |events| && Distinct(events)
    ensures events[m] !in events[..m]
  {
    assert forall l | 0 <= l < m :: events[..m][l] != events[m];
  }

  lemma StartActivates(publisher: seq<Flow>, packet: seq<Flow>, key: FlowKey, events: seq<Event>, m: nat,
                       side: int, active: set<nat>)
    requires Timeline(publisher, packet, key, events) && m < |events| && events[m].kind == 0
    requires IsActive(publisher, packet, events, m, side, active) && (side == 0 || side == 1)
    ensures IsActive(publisher, packet, events, m + 1, side,
                     if side == events[m].side then active + {events[m].index} else active)
  {
    var e := events[m];
    assert e in events && IsEvent(publisher, packet, key, e);
    AtEventItself(events, m);
    var flows := Side(publisher, packet, side);
    forall i: nat | i < |flows|
      ensures Started(publisher, packet, events, m + 1, side, i) <==>
        Started(publisher, packet, events, m, side, i) || (side == e.side && i == e.index)
      ensures Ended(publisher, packet, events, m + 1, side, i) <==> Ended(publisher, packet, events, m, side, i)
    {
      PrefixMember(events, m, StartOf(flows[i], side, i));
      PrefixMember(events, m, EndOf(flows[i], side, i));
    }
    if side == e.side {
      var end := EndOf(flows[e.index], side, e.index);
      assert IsEvent(publisher, packet, key, end);
      AtEvent(events, m, end);
    }
  }

  /** An end event finds its flow active. */
  lemma EndDeactivates(publisher: seq<Flow>, packet: seq<Flow>, key: FlowKey, events: seq<Event>, m: nat,
                       side: int, active: set<nat>)
    requires Timeline(publisher, packet, key, events) && m < |events| && events[m].kind != 0
    requires IsActive(publisher, packet, events, m, side, active) && (side == 0 || side == 1)
    ensures side == events[m].side ==> events[m].index in active
    ensures IsActive(publisher, packet, events, m + 1, side,
                     if side == events[m].side then active - {events[m].index} else active)
  {
    var e := events[m];
    assert e in events && IsEvent(publisher, packet, key, e);
    AtEventItself(events, m);
    var flows := Side(publisher, packet, side);
    forall i: nat | i < |flows|
      ensures Started(publisher, packet, events, m + 1, side, i) <==> Started(publisher, packet, events, m, side, i)
      ensures Ended(publisher, packet, events, m + 1, side, i) <==>
        Ended(publisher, packet, events, m, side, i) || (side == e.side && i == e.index)
    {
      PrefixMember(events, m, StartOf(flows[i], side, i));
      PrefixMember(events, m, EndOf(flows[i], side, i));
    }
    if side == e.side {
      var start := StartOf(flows[e.index], side, e.index);
      assert IsEvent(publisher, packet, key, start);
      AtEvent(events, m, start);
    }
  }

  lemma EndKeepsPairs(publisher: seq<Flow>, packet: seq<Flow>, key: FlowKey, events: seq<Event>, m: nat,
                      pairs: set<(nat, nat)>)
    requires Timeline(publisher, packet, key, events) && m < |events| && events[m].kind != 0
    requires StartedPairs(publisher, packet, events, m, pairs)
    ensures StartedPairs(publisher, packet, events, m + 1, pairs)
  {
    forall i: nat, j: nat
      ensures Started(publisher, packet, events, m + 1, 0, i) <==> Started(publisher, packet, events, m, 0, i)
      ensures Started(publisher, packet, events, m + 1, 1, j) <==> Started(publisher, packet, events, m, 1, j)
    {
      if i < |publisher| { PrefixMember(events, m, StartOf(publisher[i], 0, i)); }
      if j < |packet| { PrefixMember(events, m, StartOf(packet[j], 1, j)); }
    }
  }

  /** The pairs of one key. */
  ghost function KeyPairs(publisher: seq<Flow>, packet: seq<Flow>, key: FlowKey): set<(nat, nat)> {
    set x | x in Pairs(publisher, packet) && publisher[x.0].key == key
  }

  lemma AllStarted(publisher: seq<Flow>, packet: seq<Flow>, key: FlowKey, events: seq<Event>, pairs: set<(nat, nat)>)
    requires Timeline(publisher, packet, key, events)
    requires StartedPairs(publisher, packet, events, |events|, pairs)
    ensures pairs == KeyPairs(publisher, packet, key)
  {
    assert events[..|events|] == events;
    forall x: (nat, nat) ensures x in pairs <==> x in KeyPairs(publisher, packet, key) {
      var i, j := x.0, x.1;
      assert x == (i, j);
      if i < |publisher| { assert IsEvent(publisher, packet, key, StartOf(publisher[i], 0, i)) <==> publisher[i].key == key; }
      if j < |packet| { assert IsEvent(publisher, packet, key, StartOf(packet[j], 1, j)) <==> packet[j].key == key; }
    }
  }

  lemma CrossedGrows(side: int, index: nat, done: set<nat>, other: nat)
    requires other !in done
    ensures var pair := if side == 0 then (index, other) else (other, index);
            && Crossed(side, index, done + {other}) == Crossed(side, index, done) + {pair}
            && pair !in Crossed(side, index, done)
  {
  }

  function AddEdge(e: Edges, p: nat, q: nat): Edges
    requires p < |e.publisher| && q < |e.packet|
  {
    Edges(e.publisher[p := e.publisher[p] + {q}], e.packet[q := e.packet[q] + {p}], e.count + 1)
  }

  lemma AddEdgeTabulates(e: Edges, p: nat, q: nat, pairs: set<(nat, nat)>, n: nat, m: nat)
    requires Tabulates(e, pairs, n, m) && p < n && q < m && (p, q) !in pairs
    ensures Tabulates(AddEdge(e, p, q), pairs + {(p, q)}, n, m)
  {
  }

  /** Links the flow that starts with every active flow of the other side. */
  method LinkActive(edges: Edges, side: int, index: nat, others: set<nat>, edgeLimit: nat, ghost pairs: set<(nat, nat)>)
    returns (r: Result<Edges, string>)
    requires side == 0 || side == 1
    requires Tabulates(edges, pairs, |edges.publisher|, |edges.packet|) && edges.count <= edgeLimit
    requires index < if side == 0 then |edges.publisher| else |edges.packet|
    requires forall j | j in others :: j < if side == 0 then |edges.packet| else |edges.publisher|
    requires pairs !! Crossed(side, index, others)
    ensures r.Success? ==> r.value.count <= edgeLimit
    ensures r.Success? ==> Tabulates(r.value, pairs + Crossed(side, index, others), |edges.publisher|, |edges.packet|)
    ensures r.Failure? ==> |pairs + Crossed(side, index, others)| > edgeLimit
  {
    hide Tabulates, Crossed;
    ghost var n, m := |edges.publisher|, |edges.packet|;
    var table := edges;
    var rest := others;
    ghost var done: set<nat> := {};
    CrossedNothing(side, index, pairs);
    while rest != {}
      invariant rest !! done && rest + done == others && table.count <= edgeLimit
      invariant Tabulates(table, pairs + Crossed(side, index, done), n, m)
    {
      var other :| other in rest;
      var p, q := if side == 0 then index else other, if side == 0 then other else index;
      TabulatesCounts(table, pairs + Crossed(side, index, done), n, m);
      LinkStep(table, side, index, done, other, others, pairs, n, m);
      table := AddEdge(table, p, q);
      rest, done := rest - {other}, done + {other};
      if table.count > edgeLimit {
        return Failure("match edge count exceeds limit");
      }
    }
    assert done == others;
    return Success(table);
  }

  lemma LinkStep(e: Edges, side: int, index: nat, done: set<nat>, other: nat, others: set<nat>,
                 pairs: set<(nat, nat)>, n: nat, m: nat)
    requires other !in done && done + {other} <= others && pairs !! Crossed(side, index, others)
    requires Tabulates(e, pairs + Crossed(side, index, done), n, m)
    requires var p, q := if side == 0 then index else other, if side == 0 then other else index; p < n && q < m
    ensures var p, q := if side == 0 then index else other, if side == 0 then other else index;
            && Tabulates(AddEdge(e, p, q), pairs + Crossed(side, index, done + {other}), n, m)
            && AddEdge(e, p, q).count <= |pairs + Crossed(side, index, others)|
  {
    var p, q := if side == 0 then index else other, if side == 0 then other else index;
    var linked := pairs + Crossed(side, index, done);
    CrossedGrows(side, index, done, other);
    CrossedMonotone(side, index, done + {other}, others);
    assert (p, q) in Crossed(side, index, done + {other});
    hide Crossed;
    AddEdgeTabulates(e, p, q, linked, n, m);
    assert linked + {(p, q)} == pairs + Crossed(side, index, done + {other});
    SubsetCount(linked + {(p, q)}, pairs + Crossed(side, index, others));
  }

  lemma CrossedNothing(side: int, index: nat, pairs: set<(nat, nat)>)
    ensures pairs + Crossed(side, index, {}) == pairs
  {
  }

  lemma TabulatesCounts(e: Edges, pairs: set<(nat, nat)>, n: nat, m: nat)
    requires Tabulates(e, pairs, n, m)
    ensures e.count == |pairs| && |e.publisher| == n && |e.packet| == m
  {
  }

  lemma CrossedMonotone(side: int, index: nat, a: set<nat>, b: set<nat>)
    requires a <= b
    ensures Crossed(side, index, a) <= Crossed(side, index, b)
  {
  }

  lemma EventOf(publisher: seq<Flow>, packet: seq<Flow>, key: FlowKey, events: seq<Event>, m: nat)
    requires Timeline(publisher, packet, key, events) && m < |events|
    ensures events[m].side == 0 || events[m].side == 1
    ensures events[m].index < |Side(publisher, packet, events[m].side)|
  {
    assert events[m] in events;
  }

  lemma ActiveInRange(publisher: seq<Flow>, packet: seq<Flow>, events: seq<Event>, m: nat, side: int, active: set<nat>)
    requires m <= |events| && IsActive(publisher, packet, events, m, side, active)
    ensures forall i | i in active :: i < |Side(publisher, packet, side)|
  {
  }

  lemma NothingStarted(publisher: seq<Flow>, packet: seq<Flow>, events: seq<Event>)
    ensures IsActive(publisher, packet, events, 0, 0, {}) && IsActive(publisher, packet, events, 0, 1, {})
    ensures StartedPairs(publisher, packet, events, 0, {})
  {
  }

  lemma StartStep(publisher: seq<Flow>, packet: seq<Flow>, key: FlowKey, events: seq<Event>, m: nat,
                  activePublisher: set<nat>, activePacket: set<nat>, pairs: set<(nat, nat)>)
    requires Timeline(publisher, packet, key, events) && m < |events| && events[m].kind == 0
    requires IsActive(publisher, packet, events, m, 0, activePublisher)
    requires IsActive(publisher, packet, events, m, 1, activePacket)
    requires StartedPairs(publisher, packet, events, m, pairs)
    ensures var e := events[m];
            var others := if e.side == 0 then activePacket else activePublisher;
            var all := pairs + Crossed(e.side, e.index, others);
            && StartedPairs(publisher, packet, events, m + 1, all) && all <= KeyPairs(publisher, packet, key)
            && pairs !! Crossed(e.side, e.index, others)
            && (forall i | i in others :: i < |Side(publisher, packet, 1 - e.side)|)
            && IsActive(publisher, packet, events, m + 1, 0,
                        if e.side == 0 then activePublisher + {e.index} else activePublisher)
            && IsActive(publisher, packet, events, m + 1, 1,
                        if e.side == 1 then activePacket + {e.index} else activePacket)
  {
    hide Timeline, IsActive, StartedPairs, KeyPairs, Crossed;
    var e := events[m];
    EventOf(publisher, packet, key, events, m);
    var others := if e.side == 0 then activePacket else activePublisher;
    StartExtends(publisher, packet, key, events, m, others, pairs);
    StartActivates(publisher, packet, key, events, m, 0, activePublisher);
    StartActivates(publisher, packet, key, events, m, 1, activePacket);
    ActiveInRange(publisher, packet, events, m, 1 - e.side, others);
    StartedAreKeyPairs(publisher, packet, key, events, m + 1, pairs + Crossed(e.side, e.index, others));
  }

  /** Sweeps the events of one key. */
  method Sweep(publisher: seq<Flow>, packet: seq<Flow>, ghost key: FlowKey, events: seq<Event>,
               edges: Edges, edgeLimit: nat, ghost earlier: set<(nat, nat)>)
    returns (r: Result<Edges, string>)
    requires Timeline(publisher, packet, key, events)
    requires Tabulates(edges, earlier, |publisher|, |packet|) && edges.count <= edgeLimit
    requires earlier !! KeyPairs(publisher, packet, key)
    ensures r.Success? ==> r.value.count <= edgeLimit
    ensures r.Success? ==> Tabulates(r.value, earlier + KeyPairs(publisher, packet, key), |publisher|, |packet|)
    ensures r.Failure? ==> |earlier + KeyPairs(publisher, packet, key)| > edgeLimit
  {
    hide Timeline, IsActive, StartedPairs, KeyPairs, Crossed, Tabulates;
    var table := edges;
    var activePublisher: set<nat>, activePacket: set<nat> := {}, {};
    ghost var pairs: set<(nat, nat)> := {};
    assert earlier + pairs == earlier;
    NothingStarted(publisher, packet, events);
    var m := 0;
    while m < |events|
      invariant m <= |events| && table.count <= edgeLimit
      invariant IsActive(publisher, packet, events, m, 0, activePublisher)
      invariant IsActive(publisher, packet, events, m, 1, activePacket)
      invariant StartedPairs(publisher, packet, events, m, pairs)
      invariant pairs <= KeyPairs(publisher, packet, key)
      invariant Tabulates(table, earlier + pairs, |publisher|, |packet|)
    {
      var e := events[m];
      EventOf(publisher, packet, key, events, m);
      TabulatesCounts(table, earlier + pairs, |publisher|, |packet|);
      if e.kind == 0 {
        var others := if e.side == 0 then activePacket else activePublisher;
        StartStep(publisher, packet, key, events, m, activePublisher, activePacket, pairs);
        ghost var more := Crossed(e.side, e.index, others);
        assert (earlier + pairs) !! more;
        var linked := LinkActive(table, e.side, e.index, others, edgeLimit, earlier + pairs);
        assert earlier + pairs + more == earlier + (pairs + more);
        if linked.Failure? {
          SubsetCount(earlier + pairs + more, earlier + KeyPairs(publisher, packet, key));
          return linked;
        }
        table := linked.value;
        pairs := pairs + more;
        if e.side == 0 {
          activePublisher := activePublisher + {e.index};
        } else {
          activePacket := activePacket + {e.index};
        }
      } else {
        EndKeepsPairs(publisher, packet, key, events, m, pairs);
        EndDeactivates(publisher, packet, key, events, m, 0, activePublisher);
        EndDeactivates(publisher, packet, key, events, m, 1, activePacket);
        if e.side == 0 {
          assert e.index in activePublisher;  // `remove` finds it
          activePublisher := activePublisher - {e.index};
        } else {
          assert e.index in activePacket;
          activePacket := activePacket - {e.index};
        }
      }
      m := m + 1;
    }
    AllStarted(publisher, packet, key, events, pairs);
    return Success(table);
  }

  lemma StartedAreKeyPairs(publisher: seq<Flow>, packet: seq<Flow>, key: FlowKey, events: seq<Event>, m: nat,
                           pairs: set<(nat, nat)>)
    requires Timeline(publisher, packet, key, events) && m <= |events|
    requires StartedPairs(publisher, packet, events, m, pairs)
    ensures pairs <= KeyPairs(publisher, packet, key)
  {
    forall x | x in pairs ensures x in KeyPairs(publisher, packet, key) {
      assert x == (x.0, x.1);
      var start := StartOf(publisher[x.0], 0, x.0);
      assert start in events && IsEvent(publisher, packet, key, start);
    }
  }

  /** The pairs whose keys have been swept. */
  ghost function SweptPairs(publisher: seq<Flow>, packet: seq<Flow>, keys: set<FlowKey>): set<(nat, nat)> {
    set x | x in Pairs(publisher, packet) && publisher[x.0].key in keys
  }

  /** The sweep finds exactly the pairs that brute force finds, and refuses exactly if there
      are more of them than the limit. */
  method MatchFlows(publisher: seq<Flow>, packet: seq<Flow>, edgeLimit: nat) returns (r: Result<Edges, string>)
    requires WellTimed(publisher) && WellTimed(packet)
    ensures r.Success? <==> |Pairs(publisher, packet)| <= edgeLimit
    ensures r.Success? ==> Tabulates(r.value, Pairs(publisher, packet), |publisher|, |packet|)
  {
    hide Tabulates, Meets, Grouped, SweptPairs, KeyPairs, Pairs, Timeline, AllEvents;
    var publisherByKey := GroupByKey(publisher);
    var packetByKey := GroupByKey(packet);
    var table := Edges(seq(|publisher|, _ => {}), seq(|packet|, _ => {}), 0);
    EmptyTabulates(|publisher|, |packet|);
    var rest := publisherByKey.Keys * packetByKey.Keys;
    ghost var done: set<FlowKey> := {};
    NothingSwept(publisher, packet);
    while rest != {}
      invariant rest !! done && rest + done == publisherByKey.Keys * packetByKey.Keys
      invariant table.count <= edgeLimit
      invariant Tabulates(table, SweptPairs(publisher, packet, done), |publisher|, |packet|)
    {
      var key :| key in rest;
      GroupOfKey(publisher, publisherByKey, key);
      GroupOfKey(packet, packetByKey, key);
      var collected := CollectEvents(publisher, packet, key, publisherByKey[key], packetByKey[key]);
      var events := Sort(Before, collected);
      SortedTimeline(publisher, packet, key, collected);
      ghost var earlier := SweptPairs(publisher, packet, done);
      SweptGrows(publisher, packet, done, key);
      var swept := Sweep(publisher, packet, key, events, table, edgeLimit, earlier);
      if swept.Failure? {
        SubsetCount(SweptPairs(publisher, packet, done + {key}), Pairs(publisher, packet));
        return swept;
      }
      table := swept.value;
      rest := rest - {key};
      done := done + {key};
    }
    AllSwept(publisher, packet, publisherByKey, packetByKey, done);
    TabulatesCounts(table, Pairs(publisher, packet), |publisher|, |packet|);
    return Success(table);
  }

  lemma NothingSwept(publisher: seq<Flow>, packet: seq<Flow>)
    ensures SweptPairs(publisher, packet, {}) == {}
  {
  }

  lemma GroupOfKey(flows: seq<Flow>, byKey: map<FlowKey, seq<nat>>, key: FlowKey)
    requires Grouped(flows, byKey) && key in byKey
    ensures Distinct(byKey[key])
    ensures forall i: nat :: i in byKey[key] <==> i < |flows| && flows[i].key == key
  {
  }

  lemma EmptyTabulates(n: nat, m: nat)
    ensures Tabulates(Edges(seq(n, _ => {}), seq(m, _ => {}), 0), {}, n, m)
  {
  }

  lemma SweptGrows(publisher: seq<Flow>, packet: seq<Flow>, done: set<FlowKey>, key: FlowKey)
    requires key !in done
    ensures SweptPairs(publisher, packet, done) + KeyPairs(publisher, packet, key) ==
            SweptPairs(publisher, packet, done + {key})
    ensures SweptPairs(publisher, packet, done) !! KeyPairs(publisher, packet, key)
    ensures SweptPairs(publisher, packet, done + {key}) <= Pairs(publisher, packet)
  {
  }

  lemma AllSwept(publisher: seq<Flow>, packet: seq<Flow>, p: map<FlowKey, seq<nat>>, q: map<FlowKey, seq<nat>>,
                 done: set<FlowKey>)
    requires Grouped(publisher, p) && Grouped(packet, q) && done == p.Keys * q.Keys
    ensures SweptPairs(publisher, packet, done) == Pairs(publisher, packet)
  {
    forall x | x in Pairs(publisher, packet) ensures x in SweptPairs(publisher, packet, done) {
      assert publisher[x.0].key in p && packet[x.1].key in q;
    }
  }

  lemma SortedTimeline(publisher: seq<Flow>, packet: seq<Flow>, key: FlowKey, events: seq<Event>)
    requires WellTimed(publisher) && WellTimed(packet) && AllEvents(publisher, packet, key, events)
    ensures Timeline(publisher, packet, key, Sort(Before, events))
  {
    BeforeIsTotal();
    SortSorts(Before, events);
    DistinctPermutation(events, Sort(Before, events));
    MultisetMembers(events, Sort(Before, events));
  }
}
