/** The registry of MQTT bridges: a list changed in place by add and remove-by-id,
    read through snapshot copies. Its lock is modelled as atomic steps. */
module BridgeConfiguration {

  /** An MQTT bridge as the registry sees it: an id, and the rest of the bridge's
      configuration, which the registry never looks at. */
  datatype MqttBridge = MqttBridge(id: string, settings: map<string, string>)

  /** Some bridge of `bridges` has the id `id`. */
  predicate HasId(bridges: seq<MqttBridge>, id: string)
  {
    exists i :: 0 <= i < |bridges| && bridges[i].id == id
  }

  /** `removeIf(b -> b.getId().equals(id))`: the bridges whose id is not `id`, in order. */
  function WithoutId(bridges: seq<MqttBridge>, id: string): (r: seq<MqttBridge>)
    ensures |r| <= |bridges|
    ensures forall i :: 0 <= i < |r| ==> r[i].id != id
  {
    if bridges == [] then []
    else
      var last := bridges[|bridges| - 1];
      WithoutId(bridges[..|bridges| - 1], id) + (if last.id == id then [] else [last])
  }

  /** Removal works piecewise: removing from a concatenation concatenates the removals,
      so the bridges that stay keep their relative order. */
  lemma {:induction false} WithoutIdAppend(a: seq<MqttBridge>, b: seq<MqttBridge>, id: string)
    ensures WithoutId(a + b, id) == WithoutId(a, id) + WithoutId(b, id)
    decreases |b|
  {
    if b == [] {
      assert a + b == a;
    } else {
      var last := b[|b| - 1];
      assert (a + b)[..|a + b| - 1] == a + b[..|b| - 1];
      WithoutIdAppend(a, b[..|b| - 1], id);
    }
  }

  /** A bridge whose id differs stays, one whose id matches goes. */
  lemma WithoutIdSingle(b: MqttBridge, id: string)
    ensures WithoutId([b], id) == if b.id == id then [] else [b]
  {
    assert [b][..0] == [];
  }

  /** Every bridge with another id stays, as often as it occurred; none with the id stays. */
  lemma {:induction false} WithoutIdKeepsOthers(bridges: seq<MqttBridge>, id: string, b: MqttBridge)
    ensures multiset(WithoutId(bridges, id))[b] == if b.id == id then 0 else multiset(bridges)[b]
  {
    if bridges != [] {
      var init, last := bridges[..|bridges| - 1], bridges[|bridges| - 1];
      WithoutIdKeepsOthers(init, id, b);
      assert bridges == init + [last];
    }
  }

  /** When some bridge has the id, removal shortens the list. */
  lemma {:induction false} WithoutIdShrinks(bridges: seq<MqttBridge>, id: string)
    requires HasId(bridges, id)
    ensures |WithoutId(bridges, id)| < |bridges|
  {
    var init, last := bridges[..|bridges| - 1], bridges[|bridges| - 1];
    if last.id != id {
      var i :| 0 <= i < |bridges| && bridges[i].id == id;
      assert init[i].id == id;
      WithoutIdShrinks(init, id);
    }
  }

  /** Removal changes the list iff some bridge had the id. */
  lemma {:induction false} WithoutIdUnchangedIffAbsent(bridges: seq<MqttBridge>, id: string)
    ensures WithoutId(bridges, id) == bridges <==> !HasId(bridges, id)
  {
    if HasId(bridges, id) {
      WithoutIdShrinks(bridges, id);
    } else if bridges != [] {
      var init, last := bridges[..|bridges| - 1], bridges[|bridges| - 1];
      assert !HasId(init, id) by {
        forall i | 0 <= i < |init| ensures init[i].id != id {
          assert init[i] == bridges[i];
        }
      }
      WithoutIdUnchangedIffAbsent(init, id);
      assert bridges == init + [last];
    }
  }

  /** Removing twice is removing once. */
  lemma WithoutIdIdempotent(bridges: seq<MqttBridge>, id: string)
    ensures WithoutId(WithoutId(bridges, id), id) == WithoutId(bridges, id)
    ensures !HasId(WithoutId(bridges, id), id)
  {
    WithoutIdUnchangedIffAbsent(WithoutId(bridges, id), id);
  }

  class BridgeConfigurationService {
    /** `mqttBridges`, in insertion order. */
    var mqttBridges: seq<MqttBridge>

    constructor ()
      ensures mqttBridges == []
    {
      mqttBridges := [];
    }

    /** `addBridge(MqttBridge)`: appends, even when a bridge with the same id exists. */
    method AddBridge(bridge: MqttBridge)
      modifies this
      ensures mqttBridges == old(mqttBridges) + [bridge]
    {
      mqttBridges := mqttBridges + [bridge];
    }

    /** `getBridges`: a copy of the current contents, in insertion order. */
    method GetBridges() returns (snapshot: seq<MqttBridge>)
      ensures snapshot == mqttBridges
    {
      snapshot := mqttBridges;
    }

    /** `removeBridge(id)`: removes every bridge with that id, in place, and reports
        whether any was removed. */
    method RemoveBridge(id: string) returns (removed: bool)
      modifies this
      ensures mqttBridges == WithoutId(old(mqttBridges), id)
      ensures removed == HasId(old(mqttBridges), id)
    {
      var kept: seq<MqttBridge> := [];
      removed := false;
      var i := 0;
      while i < |mqttBridges|
        invariant 0 <= i <= |mqttBridges|
        invariant mqttBridges == old(mqttBridges)
        invariant kept == WithoutId(mqttBridges[..i], id)
        invariant removed == HasId(mqttBridges[..i], id)
      {
        assert mqttBridges[..i + 1][..i] == mqttBridges[..i];
        if mqttBridges[i].id == id {
          removed := true;
        } else {
          kept := kept + [mqttBridges[i]];
        }
        assert removed == HasId(mqttBridges[..i + 1], id) by {
          if HasId(mqttBridges[..i], id) {
            var j :| 0 <= j < i && mqttBridges[..i][j].id == id;
            assert mqttBridges[..i + 1][j].id == id;
          }
          if HasId(mqttBridges[..i + 1], id) && mqttBridges[i].id != id {
            var j :| 0 <= j < i + 1 && mqttBridges[..i + 1][j].id == id;
            assert mqttBridges[..i][j].id == id;
          }
        }
        i := i + 1;
      }
      assert mqttBridges[..i] == mqttBridges;
      mqttBridges := kept;
    }
  }

  /** A snapshot taken by `getBridges` keeps the contents of that moment while the
      registry goes on to add a bridge and remove it by id. Here this follows from `seq`
      being a value, for any `GetBridges` meeting its contract; that the Java code
      copies the list into a new immutable list is what this value semantics stands for,
      not something proved. */
  method SnapshotIsACopy(registry: BridgeConfigurationService, bridge: MqttBridge)
    returns (snapshot: seq<MqttBridge>)
    modifies registry
    ensures snapshot == old(registry.mqttBridges)
    ensures registry.mqttBridges == WithoutId(old(registry.mqttBridges), bridge.id)
  {
    snapshot := registry.GetBridges();
    registry.AddBridge(bridge);
    var removed := registry.RemoveBridge(bridge.id);
    WithoutIdAppend(snapshot, [bridge], bridge.id);
    WithoutIdSingle(bridge, bridge.id);
  }

  /** Removing the same id twice: the second call finds nothing and changes nothing. */
  method RemoveTwice(registry: BridgeConfigurationService, id: string) returns (first: bool, second: bool)
    modifies registry
    ensures first == HasId(old(registry.mqttBridges), id) && !second
    ensures registry.mqttBridges == WithoutId(old(registry.mqttBridges), id)
  {
    first := registry.RemoveBridge(id);
    WithoutIdIdempotent(old(registry.mqttBridges), id);
    second := registry.RemoveBridge(id);
  }
}
