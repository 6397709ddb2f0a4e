/** The power the balance loop counts, told from the history of telemetry alone. */
module PowerHistory {
  import opened Common
  import opened Dict
  import opened EnergyState
  import Registry

  datatype Arrival = Arrival(payload: Payload, at: int)

  function ReadingsAfter(h: seq<Arrival>): seq<Entry<Reading>> {
    if h == [] then [] else
      Receive(ReadingsAfter(h[..|h| - 1]), h[|h| - 1].payload, h[|h| - 1].at)
  }

  /** A message that counts: a producer's, whose numbers and `sent_ms` convert. */
  predicate Valid(a: Arrival) { !a.payload.sentMs.Malformed? && ReadingOf(a.payload, a.at).Some? }

  /** The last valid reading of one node. */
  function LastValid(h: seq<Arrival>, id: string): Option<Reading> {
    if h == [] then None else
      var a := h[|h| - 1];
      if a.payload.nodeId == id && Valid(a) then ReadingOf(a.payload, a.at)
      else LastValid(h[..|h| - 1], id)
  }

  lemma {:induction false} ReadingsAreLastValid(h: seq<Arrival>, id: string)
    ensures UniqueKeys(ReadingsAfter(h))
    ensures Find(ReadingsAfter(h), id) == LastValid(h, id)
  {
    if h != [] {
      var before := h[..|h| - 1];
      var a := h[|h| - 1];
      ReadingsAreLastValid(before, id);
      if Valid(a) {
        StoreUnique(ReadingsAfter(before), a.payload.nodeId, ReadingOf(a.payload, a.at).value);
        StoreKeeps(ReadingsAfter(before), a.payload.nodeId, ReadingOf(a.payload, a.at).value, id);
      }
    }
  }

  // ---------- sums over identifiers ----------

  function SumOver(ids: seq<string>, f: string -> real): real {
    if ids == [] then 0.0 else f(ids[0]) + SumOver(ids[1..], f)
  }

  predicate Distinct(ids: seq<string>) {
    forall i, j :: 0 <= i < j < |ids| ==> ids[i] != ids[j]
  }

  lemma {:induction false} SumWithout(ids: seq<string>, j: nat, f: string -> real)
    requires j < |ids|
    ensures SumOver(ids, f) == f(ids[j]) + SumOver(ids[..j] + ids[j + 1..], f)
  {
    if j == 0 {
      assert ids[..0] + ids[1..] == ids[1..];
    } else {
      SumWithout(ids[1..], j - 1, f);
      var rest := ids[..j] + ids[j + 1..];
      assert rest[1..] == ids[1..][..j - 1] + ids[1..][j..];
    }
  }

  /** Two duplicate-free lists give the same sum when whatever only one of them has is worth nothing. */
  lemma {:induction false} SumOfSameSupport(a: seq<string>, b: seq<string>, f: string -> real)
    requires Distinct(a) && Distinct(b)
    requires forall x :: x in a && x !in b ==> f(x) == 0.0
    requires forall x :: x in b && x !in a ==> f(x) == 0.0
    ensures SumOver(a, f) == SumOver(b, f)
    decreases |a| + |b|
  {
    if a == [] {
      if b != [] {
        assert b[0] in b;
        SumOfSameSupport(a, b[1..], f);
      }
    } else if a[0] in b {
      var j :| 0 <= j < |b| && b[j] == a[0];
      var rest := b[..j] + b[j + 1..];
      SumWithout(b, j, f);
      forall x ensures x in rest <==> x in b && x != a[0] {
        if x in b && x != a[0] {
          var k :| 0 <= k < |b| && b[k] == x;
          assert x == rest[if k < j then k else k - 1];
        }
      }
      assert forall x :: x in a[1..] <==> x in a && x != a[0];
      SumOfSameSupport(a[1..], rest, f);
    } else {
      assert forall x :: x in a[1..] ==> x in a;
      SumOfSameSupport(a[1..], b, f);
    }
  }

  // ---------- the theorem ----------

  /** What one node is worth: its last valid reading, if of a wanted type and not older than 30 s. */
  function Worth(h: seq<Arrival>, types: set<string>, now: int, id: string): real {
    match LastValid(h, id)
    case None => 0.0
    case Some(r) => if Counts(r, types, now) then r.power else 0.0
  }

  /** The readings that count, by their types and age: a renewable one of wind or solar, a diesel one of
      diesel, as long as it is at most 30 seconds old. */
  lemma WorthIsRecentPower(h: seq<Arrival>, now: int, id: string)
    ensures var last := LastValid(h, id);
            && Worth(h, RENEWABLE_TYPES, now, id) ==
               (if last.Some? && (last.value.kind == "wind" || last.value.kind == "solar")
                   && now - last.value.at <= 30 * 1000
                then last.value.power else 0.0)
            && Worth(h, {DIESEL_TYPE}, now, id) ==
               (if last.Some? && last.value.kind == "diesel" && now - last.value.at <= 30 * 1000
                then last.value.power else 0.0)
  {
  }

  lemma {:induction false} PowerIsSumOverReadings(
      readings: seq<Entry<Reading>>, nodes: Registry.Nodes, types: set<string>, now: int, f: string -> real)
    requires forall i :: 0 <= i < |readings| ==>
      f(readings[i].key) == if Counts(readings[i].value, types, now) && Find(nodes, readings[i].key).Some?
                            then readings[i].value.power else 0.0
    ensures PowerByTypes(readings, nodes, types, now) == SumOver(Keys(readings), f)
  {
    if readings != [] {
      assert forall i :: 0 <= i < |readings[1..]| ==> readings[1..][i] == readings[i + 1];
      PowerIsSumOverReadings(readings[1..], nodes, types, now, f);
      assert Keys(readings)[1..] == Keys(readings[1..]);
    }
  }

  lemma {:induction false} SumOfEquals(ids: seq<string>, f: string -> real, g: string -> real)
    requires forall i :: 0 <= i < |ids| ==> f(ids[i]) == g(ids[i])
    ensures SumOver(ids, f) == SumOver(ids, g)
  {
    if ids != [] {
      SumOfEquals(ids[1..], f, g);
    }
  }

  /** The power counted is the sum, over the registered nodes, of what each node's own last valid
      reading is worth; the order and the interleaving of the telemetry do not matter. */
  lemma PowerAgreesWithHistory(h: seq<Arrival>, nodes: Registry.Nodes, types: set<string>, now: int)
    requires UniqueKeys(nodes)
    ensures PowerByTypes(ReadingsAfter(h), nodes, types, now)
            == SumOver(Keys(nodes), id => Worth(h, types, now, id))
  {
    var readings := ReadingsAfter(h);
    var worth := id => Worth(h, types, now, id);
    var counted := id => if Find(nodes, id).Some? then Worth(h, types, now, id) else 0.0;
    ReadingsAreLastValid(h, "");
    forall i | 0 <= i < |readings|
      ensures counted(readings[i].key)
              == if Counts(readings[i].value, types, now) && Find(nodes, readings[i].key).Some?
                 then readings[i].value.power else 0.0
    {
      FindAt(readings, i);
      ReadingsAreLastValid(h, readings[i].key);
    }
    PowerIsSumOverReadings(readings, nodes, types, now, counted);
    forall x ensures x in Keys(readings) && x !in Keys(nodes) ==> counted(x) == 0.0
             ensures x in Keys(nodes) && x !in Keys(readings) ==> counted(x) == 0.0
    {
      KeysAreFound(nodes, x);
      KeysAreFound(readings, x);
      ReadingsAreLastValid(h, x);
    }
    SumOfSameSupport(Keys(readings), Keys(nodes), counted);
    forall i | 0 <= i < |nodes| ensures counted(Keys(nodes)[i]) == worth(Keys(nodes)[i]) {
      FindAt(nodes, i);
    }
    SumOfEquals(Keys(nodes), counted, worth);
  }

  /** The worth of the nodes that answered a sweep. */
  function AnsweringWorth(h: seq<Arrival>, nodes: Registry.Nodes, answers: seq<bool>,
                          types: set<string>, now: int): real
    requires |answers| == |nodes|
  {
    if nodes == [] then 0.0 else
      (if Registry.Alive(nodes[0].value, answers[0]) then Worth(h, types, now, nodes[0].key) else 0.0)
      + AnsweringWorth(h, nodes[1..], answers[1..], types, now)
  }

  lemma {:induction false} AnsweringWorthIsSum(h: seq<Arrival>, nodes: Registry.Nodes, answers: seq<bool>,
                                               types: set<string>, now: int, f: string -> real)
    requires |answers| == |nodes|
    requires forall i :: 0 <= i < |nodes| ==>
      f(nodes[i].key) == if Registry.Alive(nodes[i].value, answers[i]) then Worth(h, types, now, nodes[i].key) else 0.0
    ensures AnsweringWorth(h, nodes, answers, types, now) == SumOver(Keys(nodes), f)
  {
    if nodes != [] {
      assert forall i :: 0 <= i < |nodes[1..]| ==> nodes[1..][i] == nodes[i + 1];
      AnsweringWorthIsSum(h, nodes[1..], answers[1..], types, now, f);
      assert Keys(nodes)[1..] == Keys(nodes[1..]);
    }
  }

  /** After a liveness sweep that nothing stops, the power counted is exactly the worth of the nodes that answered:
      silent nodes contribute nothing, whatever they reported before. */
  lemma SweptPowerIsAnsweringWorth(uris: Registry.Uris, h: seq<Arrival>, nodes: Registry.Nodes,
                                   answers: seq<bool>, types: set<string>, now: int)
    requires Registry.Filed(nodes) && |answers| == |nodes|
    requires Registry.SoundlyNamed(nodes) && Registry.AllProbeable(uris, nodes)
    ensures PowerByTypes(ReadingsAfter(h), Registry.Pass(uris, nodes, answers), types, now)
            == AnsweringWorth(h, nodes, answers, types, now)
  {
    var swept := Registry.Pass(uris, nodes, answers);
    var worth := id => Worth(h, types, now, id);
    var kept := id => if Find(swept, id).Some? then Worth(h, types, now, id) else 0.0;
    Registry.SoundlyNamedIsExact(uris, nodes, answers);
    Registry.PassRemoves(uris, nodes, answers, "");
    forall x ensures x in Keys(swept) ==> x in Keys(nodes) && kept(x) == worth(x)
             ensures x !in Keys(swept) ==> kept(x) == 0.0
    {
      Registry.PassRemoves(uris, nodes, answers, x);
      KeysAreFound(swept, x);
      KeysAreFound(nodes, x);
    }
    PowerAgreesWithHistory(h, swept, types, now);
    forall i | 0 <= i < |swept| ensures worth(Keys(swept)[i]) == kept(Keys(swept)[i]) {
      assert Keys(swept)[i] in Keys(swept);
    }
    SumOfEquals(Keys(swept), worth, kept);
    SumOfSameSupport(Keys(swept), Keys(nodes), kept);
    AnsweringWorthIsSum(h, nodes, answers, types, now, kept);
  }
}
