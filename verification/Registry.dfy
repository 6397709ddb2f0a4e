/** The node registry of the cloud application and the liveness sweep that prunes it. */
module Registry {
  import opened Common
  import opened Dict

  /** The port of a registration: missing, convertible by `int(...)`, or not. */
  datatype Port = DefaultPort | PortNumber(value: int) | BadPort

  /** The fields of a registration that the cloud acts upon; None where the JSON has no such field. */
  datatype Node = Node(nodeId: Option<string>, ip: Option<string>, kind: Option<string>, port: Port)

  type Nodes = seq<Entry<Node>>

  /** The key `add_node` files a node under. */
  function KeyOf(n: Node): string {
    if n.nodeId.Some? && n.nodeId.value != "" then n.nodeId.value
    else if n.ip.Some? then n.ip.value
    else "unknown"
  }

  /** The name the liveness sweep removes a silent node by. */
  function RemovalName(n: Node): string {
    if n.nodeId.Some? then n.nodeId.value else "unknown"
  }

  predicate Filed(d: Nodes) {
    UniqueKeys(d) && forall i :: 0 <= i < |d| ==> d[i].key == KeyOf(d[i].value)
  }

  function Values(d: Nodes): (ns: seq<Node>)
    ensures |ns| == |d|
    ensures forall i :: 0 <= i < |d| ==> ns[i] == d[i].value
  {
    seq(|d|, i requires 0 <= i < |d| => d[i].value)
  }

  /** The first registered node of a type, in registration order. */
  function FirstOfType(ns: seq<Node>, kind: string): Option<Node> {
    if ns == [] then None
    else if ns[0].kind == Some(kind) then Some(ns[0])
    else FirstOfType(ns[1..], kind)
  }

  /** It is the first of that type, if there is any. */
  lemma {:induction false} FirstOfTypeIsFirst(ns: seq<Node>, kind: string)
    ensures FirstOfType(ns, kind) == None <==> forall i :: 0 <= i < |ns| ==> ns[i].kind != Some(kind)
    ensures forall i :: (0 <= i < |ns| && ns[i].kind == Some(kind)
                         && forall j :: 0 <= j < i ==> ns[j].kind != Some(kind)) ==>
                           FirstOfType(ns, kind) == Some(ns[i])
  {
    if ns != [] {
      assert forall i :: 0 < i < |ns| ==> ns[i] == ns[1..][i - 1];
      assert forall i :: 0 <= i < |ns[1..]| ==> ns[1..][i] == ns[i + 1];
      FirstOfTypeIsFirst(ns[1..], kind);
    }
  }

  lemma {:induction false} StoreKeepsFiled(d: Nodes, n: Node)
    requires Filed(d)
    ensures Filed(Store(d, KeyOf(n), n))
  {
    StoreUnique(d, KeyOf(n), n);
    if d != [] {
      if d[0].key != KeyOf(n) {
        assert forall i :: 0 <= i < |d[1..]| ==> d[1..][i] == d[i + 1];
        StoreKeepsFiled(d[1..], n);
      }
    }
  }

  lemma DropKeepsFiled(d: Nodes, key: string)
    requires Filed(d)
    ensures Filed(Drop(d, key))
  {
    DropKeeps(d, key, key);
    forall i | 0 <= i < |Drop(d, key)| ensures Drop(d, key)[i].key == KeyOf(Drop(d, key)[i].value) {
      assert Drop(d, key)[i] in d;
    }
  }

  class NodeRegistry {
    var nodes: Nodes

    constructor ()
      ensures nodes == []
    {
      nodes := [];
    }

    ghost predicate Valid()
      reads this
    {
      Filed(nodes)
    }

    method AddNode(info: Node)
      requires Valid()
      modifies this
      ensures Valid() && nodes == Store(old(nodes), KeyOf(info), info)
    {
      StoreKeepsFiled(nodes, info);
      nodes := Store(nodes, KeyOf(info), info);
    }

    method RemoveNode(nodeId: string)
      requires Valid()
      modifies this
      ensures Valid() && nodes == Drop(old(nodes), nodeId)
    {
      DropKeepsFiled(nodes, nodeId);
      nodes := Drop(nodes, nodeId);
    }

    method GetAllNodes() returns (all: seq<Node>)
      ensures all == Values(nodes)
    {
      all := Values(nodes);
    }
  }

  // ---------- what lookups and snapshots say about the past ----------

  datatype Change = Add(info: Node) | Remove(id: string)

  function Apply(d: Nodes, c: Change): Nodes {
    match c
    case Add(info) => Store(d, KeyOf(info), info)
    case Remove(id) => Drop(d, id)
  }

  function After(cs: seq<Change>): Nodes {
    if cs == [] then [] else Apply(After(cs[..|cs| - 1]), cs[|cs| - 1])
  }

  /** The last registration filed under the key, unless the key was removed since. */
  function LastRegistered(cs: seq<Change>, key: string): Option<Node> {
    if cs == [] then None else
      match cs[|cs| - 1]
      case Add(info) => if KeyOf(info) == key then Some(info) else LastRegistered(cs[..|cs| - 1], key)
      case Remove(id) => if id == key then None else LastRegistered(cs[..|cs| - 1], key)
  }

  lemma {:induction false} LookupIsLastRegistration(cs: seq<Change>, key: string)
    ensures Filed(After(cs))
    ensures Find(After(cs), key) == LastRegistered(cs, key)
  {
    if cs != [] {
      var before := After(cs[..|cs| - 1]);
      LookupIsLastRegistration(cs[..|cs| - 1], key);
      match cs[|cs| - 1]
      case Add(info) =>
        StoreKeepsFiled(before, info);
        StoreKeeps(before, KeyOf(info), info, key);
      case Remove(id) =>
        DropKeepsFiled(before, id);
        DropKeeps(before, id, key);
    }
  }

  /** The registered keys by the moment they came in, counted from their last removal. */
  function Order(cs: seq<Change>): seq<string> {
    if cs == [] then [] else
      var before := Order(cs[..|cs| - 1]);
      match cs[|cs| - 1]
      case Add(info) => if KeyOf(info) in before then before else before + [KeyOf(info)]
      case Remove(id) => Without(before, id)
  }

  lemma {:induction false} KeysAreOrder(cs: seq<Change>)
    ensures Keys(After(cs)) == Order(cs)
  {
    if cs != [] {
      var before := After(cs[..|cs| - 1]);
      KeysAreOrder(cs[..|cs| - 1]);
      LookupIsLastRegistration(cs[..|cs| - 1], "");
      match cs[|cs| - 1]
      case Add(info) => StoreOrder(before, KeyOf(info), info);
      case Remove(id) => DropOrder(before, id);
    }
  }

  /** A snapshot holds every registered node exactly once, as last registered, in the order in which
      the nodes came in. */
  lemma SnapshotIsHistory(cs: seq<Change>)
    ensures var all := Values(After(cs));
            && |all| == |Order(cs)|
            && forall i :: 0 <= i < |all| ==> Some(all[i]) == LastRegistered(cs, Order(cs)[i])
    ensures forall key :: key in Order(cs) <==> LastRegistered(cs, key).Some?
    ensures forall i, j :: 0 <= i < j < |Order(cs)| ==> Order(cs)[i] != Order(cs)[j]
  {
    hide After, Order, LastRegistered;
    var d := After(cs);
    KeysAreOrder(cs);
    LookupIsLastRegistration(cs, "");
    forall i | 0 <= i < |d| ensures Some(Values(d)[i]) == LastRegistered(cs, Order(cs)[i]) {
      FindAt(d, i);
      LookupIsLastRegistration(cs, d[i].key);
    }
    forall key ensures key in Order(cs) <==> LastRegistered(cs, key).Some? {
      LookupIsLastRegistration(cs, key);
      KeysAreFound(d, key);
    }
  }

  // ---------- the liveness sweep ----------

  /** Only a node with an address is probed; any other counts as silent in every sweep. */
  predicate Addressed(n: Node) { n.ip.Some? && n.ip.value != "" }

  predicate Alive(n: Node, answers: bool) { Addressed(n) && answers }

  /** The names removed while sweeping the snapshot `ns`, one answer per node. */
  function Removed(ns: seq<Node>, answers: seq<bool>): set<string>
    requires |ns| == |answers|
  {
    set i | 0 <= i < |ns| && !Alive(ns[i], answers[i]) :: RemovalName(ns[i])
  }

  function Sweep(d: Nodes, ns: seq<Node>, answers: seq<bool>): Nodes
    requires |ns| == |answers|
  {
    if ns == [] then d else
      var n := |ns| - 1;
      var before := Sweep(d, ns[..n], answers[..n]);
      if Alive(ns[n], answers[n]) then before else Drop(before, RemovalName(ns[n]))
  }

  /** The addresses and ports that the CoAP library makes a request for. */
  type Uris = (string, int) -> bool

  /** `probe_node` makes its request before the `try`: a port that does not convert, or an address
      that no request can be made for, raises out of it. */
  predicate Raises(uris: Uris, n: Node) {
    Addressed(n) &&
    match n.port
    case BadPort => true
    case DefaultPort => !uris(n.ip.value, 5683)
    case PortNumber(port) => !uris(n.ip.value, port)
  }

  /** A node raises exactly if it has an address and its port, 5683 where it names none, does not convert or
      makes no request with that address. */
  lemma RaisesIff(uris: Uris, n: Node)
    ensures Raises(uris, n) <==>
            && n.ip.Some? && n.ip.value != ""
            && (n.port.BadPort? || !uris(n.ip.value, if n.port.PortNumber? then n.port.value else 5683))
  {
  }

  /** The number of nodes that a pass gets through: all, or those before the first one that raises. */
  function Reach(uris: Uris, ns: seq<Node>): (r: nat)
    ensures r <= |ns| && (r < |ns| ==> Raises(uris, ns[r]))
    ensures forall i :: 0 <= i < r ==> !Raises(uris, ns[i])
  {
    if ns == [] || Raises(uris, ns[0]) then 0 else 1 + Reach(uris, ns[1..])
  }

  /** What one pass over the registered nodes leaves. */
  function Pass(uris: Uris, d: Nodes, answers: seq<bool>): Nodes
    requires |answers| == |d|
  {
    var r := Reach(uris, Values(d));
    Sweep(d, Values(d)[..r], answers[..r])
  }

  predicate AllProbeable(uris: Uris, d: Nodes) {
    forall i :: 0 <= i < |d| ==> !Raises(uris, d[i].value)
  }

  lemma ReachesAllIff(uris: Uris, d: Nodes)
    ensures Reach(uris, Values(d)) == |d| <==> AllProbeable(uris, d)
  {
  }

  lemma SweepOne(d: Nodes, ns: seq<Node>, answers: seq<bool>, i: nat)
    requires |ns| == |answers| && i < |ns|
    ensures Sweep(d, ns[..i + 1], answers[..i + 1]) ==
            var before := Sweep(d, ns[..i], answers[..i]);
            if Alive(ns[i], answers[i]) then before else Drop(before, RemovalName(ns[i]))
  {
    assert ns[..i + 1][..i] == ns[..i] && answers[..i + 1][..i] == answers[..i];
  }

  lemma NothingSwept(d: Nodes, ns: seq<Node>, answers: seq<bool>)
    requires |ns| == |answers|
    ensures Sweep(d, ns[..0], answers[..0]) == d
  {
  }

  /** One pass of `_monitor_sensor_liveness`, while nobody registers; `stopped` when an exception
      ends it, and with it the task. */
  method SweepLiveness(registry: NodeRegistry, uris: Uris, answers: seq<bool>) returns (stopped: bool)
    requires registry.Valid() && |answers| == |registry.nodes|
    modifies registry
    ensures registry.Valid()
    ensures registry.nodes == Pass(uris, old(registry.nodes), answers)
    ensures stopped <==> !AllProbeable(uris, old(registry.nodes))
  {
    hide Alive, RemovalName, Filed, Raises, Drop, Sweep;
    var nodes := registry.GetAllNodes();
    ghost var before := registry.nodes;
    ReachesAllIff(uris, before);
    NothingSwept(before, nodes, answers);
    hide AllProbeable;
    var i := 0;
    while i < |nodes| && !Raises(uris, nodes[i])
      invariant 0 <= i <= Reach(uris, nodes)
      invariant registry.Valid()
      invariant registry.nodes == Sweep(before, nodes[..i], answers[..i])
    {
      var node := nodes[i];
      SweepOne(before, nodes, answers, i);
      if !Alive(node, answers[i]) {
        registry.RemoveNode(RemovalName(node));
      }
      i := i + 1;
    }
    stopped := i < |nodes|;
  }

  lemma {:induction false} SweepRemoves(d: Nodes, ns: seq<Node>, answers: seq<bool>, key: string)
    requires UniqueKeys(d) && |ns| == |answers|
    ensures UniqueKeys(Sweep(d, ns, answers))
    ensures Find(Sweep(d, ns, answers), key) == if key in Removed(ns, answers) then None else Find(d, key)
  {
    if ns != [] {
      var n := |ns| - 1;
      SweepRemoves(d, ns[..n], answers[..n], key);
      DropKeeps(Sweep(d, ns[..n], answers[..n]), RemovalName(ns[n]), key);
      assert Removed(ns, answers) == Removed(ns[..n], answers[..n])
        + (if Alive(ns[n], answers[n]) then {} else {RemovalName(ns[n])}) by {
        assert forall i :: 0 <= i < n ==> ns[..n][i] == ns[i] && answers[..n][i] == answers[i];
      }
    }
  }

  /** A key survives a pass exactly when no silent node that the pass got through is removed by it. */
  lemma PassRemoves(uris: Uris, d: Nodes, answers: seq<bool>, key: string)
    requires Filed(d) && |answers| == |d|
    ensures var r := Reach(uris, Values(d));
            && UniqueKeys(Pass(uris, d, answers))
            && Find(Pass(uris, d, answers), key) ==
               if key in Removed(Values(d)[..r], answers[..r]) then None else Find(d, key)
  {
    var r := Reach(uris, Values(d));
    SweepRemoves(d, Values(d)[..r], answers[..r], key);
  }

  /** After the pass exactly the nodes that answer are still registered. */
  ghost predicate SweepIsExact(uris: Uris, d: Nodes, answers: seq<bool>)
    requires |answers| == |d|
  {
    forall i :: 0 <= i < |d| ==>
      Find(Pass(uris, d, answers), d[i].key) == if Alive(d[i].value, answers[i]) then Some(d[i].value) else None
  }

  /** Every node would be removed by the name it is filed under. */
  predicate WellNamed(d: Nodes) {
    forall i :: 0 <= i < |d| ==> RemovalName(d[i].value) == d[i].key
  }

  predicate NamedBy(d: Nodes, i: nat, j: nat)
    requires i < |d| && j < |d|
  {
    RemovalName(d[j].value) == d[i].key
  }

  /** A probed node is removed by its own name and by no other's; the name of a node that is never
      probed is the removal name of some node that is never probed. */
  ghost predicate SoundlyNamed(d: Nodes) {
    forall i :: 0 <= i < |d| ==>
      if Addressed(d[i].value) then forall j :: 0 <= j < |d| ==> (NamedBy(d, i, j) <==> i == j)
      else exists j :: 0 <= j < |d| && !Addressed(d[j].value) && NamedBy(d, i, j)
  }

  /** One node's fate in a pass. */
  lemma PassDecides(uris: Uris, d: Nodes, answers: seq<bool>, i: nat)
    requires Filed(d) && |answers| == |d| && i < |d|
    ensures Find(Pass(uris, d, answers), d[i].key) == None <==>
            exists j :: 0 <= j < Reach(uris, Values(d)) && !Alive(d[j].value, answers[j]) && NamedBy(d, i, j)
    ensures Find(Pass(uris, d, answers), d[i].key) in {None, Some(d[i].value)}
  {
    hide Pass, Alive;
    var r := Reach(uris, Values(d));
    PassRemoves(uris, d, answers, d[i].key);
    FindAt(d, i);
    if j :| 0 <= j < r && !Alive(d[j].value, answers[j]) && NamedBy(d, i, j) {
      assert Values(d)[..r][j] == d[j].value && answers[..r][j] == answers[j];
    }
  }

  lemma SoundlyNamedIsExact(uris: Uris, d: Nodes, answers: seq<bool>)
    requires Filed(d) && |answers| == |d| && SoundlyNamed(d) && AllProbeable(uris, d)
    ensures SweepIsExact(uris, d, answers)
  {
    hide Pass, Raises;
    ReachesAllIff(uris, d);
    forall i | 0 <= i < |d|
      ensures Find(Pass(uris, d, answers), d[i].key) ==
              if Alive(d[i].value, answers[i]) then Some(d[i].value) else None
    {
      PassDecides(uris, d, answers, i);
    }
  }

  /** Everybody answers except node m. */
  function AllBut(d: Nodes, m: int): (answers: seq<bool>)
    ensures |answers| == |d| && forall i :: 0 <= i < |d| ==> answers[i] == (i != m)
  {
    seq(|d|, i => i != m)
  }

  lemma FateWhenAllBut(uris: Uris, d: Nodes, m: int, i: nat)
    requires Filed(d) && i < |d| && SweepIsExact(uris, d, AllBut(d, m))
    ensures Alive(d[i].value, i != m) <==>
            forall j :: 0 <= j < Reach(uris, Values(d)) && NamedBy(d, i, j) ==> Alive(d[j].value, j != m)
  {
    hide Pass, NamedBy, Alive;
    PassDecides(uris, d, AllBut(d, m), i);
  }

  /** A node that raises is left alone when it is silent, unless it is also removed when it answers. */
  lemma ExactIsProbeable(uris: Uris, d: Nodes)
    requires Filed(d)
    requires forall answers: seq<bool> :: |answers| == |d| ==> SweepIsExact(uris, d, answers)
    ensures AllProbeable(uris, d)
  {
    hide SweepIsExact, NamedBy;
    ReachesAllIff(uris, d);
    var r := Reach(uris, Values(d));
    if r < |d| {
      FateWhenAllBut(uris, d, -1, r);
      FateWhenAllBut(uris, d, r, r);
    }
  }

  lemma ExactIsSoundlyNamed(uris: Uris, d: Nodes)
    requires Filed(d)
    requires forall answers: seq<bool> :: |answers| == |d| ==> SweepIsExact(uris, d, answers)
    ensures SoundlyNamed(d)
  {
    hide SweepIsExact, NamedBy, Raises;
    ExactIsProbeable(uris, d);
    ReachesAllIff(uris, d);
    forall i | 0 <= i < |d|
      ensures if Addressed(d[i].value) then forall j :: 0 <= j < |d| ==> (NamedBy(d, i, j) <==> i == j)
              else exists j :: 0 <= j < |d| && !Addressed(d[j].value) && NamedBy(d, i, j)
    {
      FateWhenAllBut(uris, d, -1, i);
      FateWhenAllBut(uris, d, i, i);
      forall j | 0 <= j < |d| && Addressed(d[i].value) ensures NamedBy(d, i, j) <==> i == j {
        FateWhenAllBut(uris, d, j, i);
      }
    }
  }

  /** The sweep is exact for every pattern of answers if and only if every node is soundly named and
      none raises: each node with an address has a port that converts, and a request can be made for
      the two. */
  lemma SweepIsExactIff(uris: Uris, d: Nodes)
    requires Filed(d)
    ensures SoundlyNamed(d) && AllProbeable(uris, d) <==>
            forall answers: seq<bool> :: |answers| == |d| ==> SweepIsExact(uris, d, answers)
  {
    hide SweepIsExact;
    if SoundlyNamed(d) && AllProbeable(uris, d) {
      forall answers: seq<bool> | |answers| == |d| ensures SweepIsExact(uris, d, answers) {
        SoundlyNamedIsExact(uris, d, answers);
      }
    } else if forall answers: seq<bool> :: |answers| == |d| ==> SweepIsExact(uris, d, answers) {
      ExactIsProbeable(uris, d);
      ExactIsSoundlyNamed(uris, d);
    }
  }

  lemma WellNamedIsSound(d: Nodes)
    requires Filed(d)
    ensures WellNamed(d) ==> SoundlyNamed(d)
    ensures SoundlyNamed(d) && (forall i :: 0 <= i < |d| ==> Addressed(d[i].value)) ==> WellNamed(d)
  {
    if WellNamed(d) {
      forall i | 0 <= i < |d|
        ensures if Addressed(d[i].value) then forall j :: 0 <= j < |d| ==> (NamedBy(d, i, j) <==> i == j)
                else exists j :: 0 <= j < |d| && !Addressed(d[j].value) && NamedBy(d, i, j)
      {
        assert NamedBy(d, i, i);
      }
    }
    if SoundlyNamed(d) && forall i :: 0 <= i < |d| ==> Addressed(d[i].value) {
      forall i | 0 <= i < |d| ensures RemovalName(d[i].value) == d[i].key {
        assert NamedBy(d, i, i);
      }
    }
  }

  /** Where every node has an address, soundly named means filed under the name one is removed by. */
  lemma AddressedSweepIsExactIff(uris: Uris, d: Nodes)
    requires Filed(d) && forall i :: 0 <= i < |d| ==> Addressed(d[i].value)
    ensures WellNamed(d) && AllProbeable(uris, d) <==>
            forall answers: seq<bool> :: |answers| == |d| ==> SweepIsExact(uris, d, answers)
  {
    hide SweepIsExact, SoundlyNamed;
    WellNamedIsSound(d);
    SweepIsExactIff(uris, d);
  }

  /** Well named, said of the registration itself: it has a node_id, or its stand-in happens to
      be the very name the sweep would use. */
  predicate RegisteredByName(n: Node) {
    || (n.nodeId.Some? && n.nodeId.value != "")
    || (n.nodeId == None && (n.ip == None || n.ip == Some("unknown")))
    || (n.nodeId == Some("") && n.ip == Some(""))
  }

  lemma {:induction false} WellNamedIffRegisteredByName(d: Nodes)
    requires Filed(d)
    ensures WellNamed(d) <==> forall i :: 0 <= i < |d| ==> RegisteredByName(d[i].value)
  {
    forall i | 0 <= i < |d| ensures RemovalName(d[i].value) == d[i].key <==> RegisteredByName(d[i].value) {
      assert d[i].key == KeyOf(d[i].value);
    }
  }

  // ---------- the life of the liveness task ----------

  /** The registry, and whether the task is still there to sweep it. */
  datatype Task = Task(nodes: Nodes, running: bool)

  /** A change of the registry by others, or the task's next pass: the keys of the nodes that answer. */
  datatype Happening = Changes(change: Change) | Sweeps(answering: set<string>)

  function Answers(d: Nodes, answering: set<string>): seq<bool> {
    seq(|d|, i requires 0 <= i < |d| => d[i].key in answering)
  }

  /** An exception out of a pass ends the task: nobody awaits it or starts it again. */
  function Live(uris: Uris, t: Task, h: Happening): Task {
    match h
    case Changes(c) => t.(nodes := Apply(t.nodes, c))
    case Sweeps(answering) =>
      if t.running then Task(Pass(uris, t.nodes, Answers(t.nodes, answering)), AllProbeable(uris, t.nodes)) else t
  }

  function LiveAll(uris: Uris, t: Task, hs: seq<Happening>): Task {
    if hs == [] then t else Live(uris, LiveAll(uris, t, hs[..|hs| - 1]), hs[|hs| - 1])
  }

  /** Only what others do to the registry. */
  function ChangesOnly(d: Nodes, hs: seq<Happening>): Nodes {
    if hs == [] then d else
      var before := ChangesOnly(d, hs[..|hs| - 1]);
      match hs[|hs| - 1]
      case Changes(c) => Apply(before, c)
      case Sweeps(_) => before
  }

  /** After a pass that meets a node which raises, in every continuation no pass removes anything: the
      registry only ever changes by registrations and unregistrations, and silent nodes stay. */
  lemma {:induction false} RaisingEndsSweepsForGood(uris: Uris, t: Task, answering: set<string>, hs: seq<Happening>)
    requires t.running && !AllProbeable(uris, t.nodes)
    ensures var after := Live(uris, t, Sweeps(answering));
            LiveAll(uris, after, hs) == Task(ChangesOnly(after.nodes, hs), false)
  {
    hide AllProbeable, Pass;
    if hs != [] {
      RaisingEndsSweepsForGood(uris, t, answering, hs[..|hs| - 1]);
    }
  }

  /** One registration is enough, whatever else is registered: an address, and a port that is not a
      number. The next pass ends the task, and the node itself stays, silent or not, unless the names
      of others remove it. */
  lemma BadPortEndsTask(uris: Uris, d: Nodes, info: Node, answering: set<string>)
    requires Filed(d) && Addressed(info) && info.port.BadPort?
    ensures var t := LiveAll(uris, Task(d, true), [Changes(Add(info)), Sweeps(answering)]);
            && !t.running
            && (WellNamed(Store(d, KeyOf(info), info)) ==> Find(t.nodes, KeyOf(info)) == Some(info))
  {
    hide Pass;
    var first := [Changes(Add(info))];
    var both := [Changes(Add(info)), Sweeps(answering)];
    assert both[..1] == first && first[..0] == [];
    var d1 := Store(d, KeyOf(info), info);
    assert LiveAll(uris, Task(d, true), []) == Task(d, true);
    assert LiveAll(uris, Task(d, true), first) == Task(d1, true);
    StoreKeepsFiled(d, info);
    StoreKeeps(d, KeyOf(info), info, KeyOf(info));
    FindIsHasKey(d1, KeyOf(info));
    var i :| 0 <= i < |d1| && d1[i].key == KeyOf(info);
    FindAt(d1, i);
    assert Raises(uris, d1[i].value);
    RaisingNodeStays(uris, d1, i, Answers(d1, answering));
  }

  lemma RaisingNodeStays(uris: Uris, d: Nodes, i: nat, answers: seq<bool>)
    requires Filed(d) && i < |d| && |answers| == |d| && Raises(uris, d[i].value)
    ensures WellNamed(d) ==> Find(Pass(uris, d, answers), d[i].key) == Some(d[i].value)
  {
    hide Pass, Raises, Alive;
    assert Reach(uris, Values(d)) <= i;
    PassDecides(uris, d, answers, i);
  }
}
