/** The device's own subscription list beside the connection's, and its support flags (src/device.c). */
module Devices {
  import opened Bytes
  import opened Lists
  import opened Requests
  import opened PacketConns

  /** struct subscription of src/device.c; `handle` is the connection's node. */
  datatype DeviceSubscription = DeviceSubscription(userData: nat, handle: Node<Subscription>)

  /** The fields of mdr_device_supported_functions_t. */
  datatype Flag =
    | PowerOff | Battery | LeftRightBattery | CradleBattery | NoiseCancelling | AmbientSoundMode
    | LeftRightConnectionStatus | Eq | EqNonCustomizable | AutoPowerOff | PlaybackController
    | AssignableSettings

  /** The function types that make a flag true. */
  function SetBy(f: Flag): set<byte> {
    match f
    case PowerOff => {0x21}
    case Battery => {0x11}
    case LeftRightBattery => {0x15}
    case CradleBattery => {0x18}
    case NoiseCancelling => {0x61, 0x62}
    case AmbientSoundMode => {0x63, 0x62}
    case LeftRightConnectionStatus => {0x17}
    case Eq => {0x51}
    case EqNonCustomizable => {0x53}
    case AutoPowerOff => {0xf4}
    case PlaybackController => {0xa1}
    case AssignableSettings => {0xf6}
  }

  /** A flag is set exactly when it was before or the list names a type that maps to it, wherever and however often. */
  predicate Describes(supported: set<Flag>, before: set<Flag>, types: seq<byte>) {
    forall f :: f in supported <==> f in before || Names(types, f)
  }

  predicate Names(types: seq<byte>, f: Flag) {
    exists i :: 0 <= i < |types| && types[i] in SetBy(f)
  }

  /** Device nodes and connection nodes are different objects. */
  ghost predicate Apart(nodes: seq<Node<DeviceSubscription>>, handles: seq<Node<Subscription>>) {
    forall i, j :: 0 <= i < |nodes| && 0 <= j < |handles| ==> (nodes[i] as object) != (handles[j] as object)
  }

  /** The handles in the device's list, in order, are exactly the connection's list. */
  ghost predicate Mirrors(nodes: seq<Node<DeviceSubscription>>, handles: seq<Node<Subscription>>) {
    |nodes| == |handles| && forall i :: 0 <= i < |nodes| ==> nodes[i].value.handle == handles[i]
  }

  lemma MirrorsWithout(nodes: seq<Node<DeviceSubscription>>, handles: seq<Node<Subscription>>, k: nat)
    requires Mirrors(nodes, handles) && Apart(nodes, handles) && k < |nodes|
    ensures Mirrors(Without(nodes, k), Without(handles, k)) && Apart(Without(nodes, k), Without(handles, k))
    ensures Apart(nodes, Without(handles, k))
  {
    var n, h := Without(nodes, k), Without(handles, k);
    assert forall i :: 0 <= i < |n| ==> n[i] == nodes[if i < k then i else i + 1];
    assert forall i :: 0 <= i < |h| ==> h[i] == handles[if i < k then i else i + 1];
  }

  lemma MirrorsWith(nodes: seq<Node<DeviceSubscription>>, handles: seq<Node<Subscription>>,
                    node: Node<DeviceSubscription>, handle: Node<Subscription>)
    requires Mirrors(nodes, handles) && Apart(nodes + [node], handles + [handle])
    requires node.value.handle == handle
    ensures Mirrors(nodes + [node], handles + [handle])
  {
  }

  /** Nothing but the subscriptions differs. */
  predicate OnlySubs(h: Host, t: Host) {
    t == h.(subs := t.subs)
  }

  class Device {
    const conn: PacketConn
    var subscriptions: Node?<DeviceSubscription>
    var subscriptionsTail: Node?<DeviceSubscription>
    /** The flags that are true. */
    var supported: set<Flag>
    ghost var nodes: seq<Node<DeviceSubscription>>

    /** Both lists are intact, and the handles in the device's list are the connection's list. */
    ghost predicate Valid()
      reads this, nodes, conn, conn.subscriptions
    {
      && conn.SubscriptionShape()
      && Linked(subscriptions, subscriptionsTail, nodes)
      && Mirrors(nodes, conn.subscriptions) && Apart(nodes, conn.subscriptions)
    }

    /** mdr_device_new_from_packetconn. */
    constructor (conn: PacketConn)
      requires conn.SubscriptionShape() && conn.subscriptions == []
      ensures Valid() && this.conn == conn && nodes == [] && supported == {}
    {
      this.conn := conn;
      subscriptions, subscriptionsTail, nodes := null, null, [];
      supported := {};
    }

    /** mdr_device_add_subscription. */
    method AddSubscription(spec: ReplySpec, userData: nat) returns (handle: Node<DeviceSubscription>)
      requires Valid()
      modifies this`subscriptions, this`subscriptionsTail, this`nodes, nodes
      modifies conn`subscription, conn`subscriptionListTail, conn`subscriptions, conn`state, conn.subscriptions
      ensures Valid() && fresh(handle) && nodes == old(nodes) + [handle] && handle.value.userData == userData
      ensures conn.subscriptions == old(conn.subscriptions) + [handle.value.handle]
      ensures conn.state == Perform(old(conn.state), Listen(Subscription(spec, true, userData)))
    {
      var connHandle := conn.Subscribe(Subscription(spec, true, userData));
      handle := new Node(DeviceSubscription(userData, connHandle));
      MirrorsWith(nodes, old(conn.subscriptions), handle, connHandle);
      LinkNode(handle);
    }

    /** The new node goes behind the device's list; the connection's list is as it was. */
    method LinkNode(node: Node<DeviceSubscription>)
      requires conn.SubscriptionShape() && Linked(subscriptions, subscriptionsTail, nodes)
      requires Apart(nodes, conn.subscriptions) && node !in nodes && node.next == null
      modifies this`subscriptions, this`subscriptionsTail, this`nodes, nodes
      ensures conn.SubscriptionShape() && Linked(subscriptions, subscriptionsTail, nodes)
      ensures nodes == old(nodes) + [node]
    {
      subscriptions, subscriptionsTail := Append(subscriptions, subscriptionsTail, node, nodes);
      nodes := nodes + [node];
    }

    /** The connection forgets the k-th handle; the device's list is as it was. */
    method DropHandle(handle: Node<Subscription>, ghost k: nat)
      requires Valid() && k < |nodes| && handle == conn.subscriptions[k]
      modifies conn`subscription, conn`subscriptionListTail, conn`subscriptions, conn`state, conn.subscriptions
      ensures conn.SubscriptionShape() && Linked(subscriptions, subscriptionsTail, nodes)
      ensures conn.subscriptions == Without(old(conn.subscriptions), k)
      ensures conn.state == Step(old(conn.state), Unsubscribing(k))
    {
      ghost var at := conn.RemoveSubscription(handle);
      assert at == k;
    }

    /** The device unlinks its own k-th node; the connection's list is as it was. */
    method DropNode(prev: Node?<DeviceSubscription>, node: Node<DeviceSubscription>, ghost k: nat)
      requires conn.SubscriptionShape() && Linked(subscriptions, subscriptionsTail, nodes)
      requires Apart(nodes, conn.subscriptions) && k < |nodes| && node == nodes[k]
      requires prev == if k == 0 then null else nodes[k - 1]
      modifies this`subscriptions, this`subscriptionsTail, this`nodes, nodes
      ensures conn.SubscriptionShape() && Linked(subscriptions, subscriptionsTail, nodes)
      ensures nodes == Without(old(nodes), k)
    {
      subscriptions, subscriptionsTail := Unlink(subscriptions, subscriptionsTail, prev, node, nodes, k);
      nodes := Without(nodes, k);
    }

    /** What the loop of mdr_device_remove_subscription does at the node it looked for. */
    method RemoveAt(prev: Node?<DeviceSubscription>, node: Node<DeviceSubscription>, ghost k: nat)
      requires Valid() && k < |nodes| && node == nodes[k]
      requires prev == if k == 0 then null else nodes[k - 1]
      modifies this`subscriptions, this`subscriptionsTail, this`nodes, nodes
      modifies conn`subscription, conn`subscriptionListTail, conn`subscriptions, conn`state, conn.subscriptions
      ensures Valid() && conn.state == Step(old(conn.state), Unsubscribing(k))
      ensures nodes == Without(old(nodes), k) && conn.subscriptions == Without(old(conn.subscriptions), k)
    {
      MirrorsWithout(nodes, conn.subscriptions, k);
      DropHandle(node.value.handle, k);
      DropNode(prev, node, k);
    }

    /** mdr_device_remove_subscription; k is where the handle stood, or past the end. */
    method RemoveSubscription(handle: Node<DeviceSubscription>) returns (ghost k: nat)
      requires Valid()
      modifies this`subscriptions, this`subscriptionsTail, this`nodes, nodes
      modifies conn`subscription, conn`subscriptionListTail, conn`subscriptions, conn`state, conn.subscriptions
      ensures Valid() && conn.state == Step(old(conn.state), Unsubscribing(k))
      ensures k < |old(nodes)| ==>
                && old(nodes)[k] == handle && nodes == Without(old(nodes), k)
                && conn.subscriptions == Without(old(conn.subscriptions), k)
      ensures k >= |old(nodes)| ==>
                handle !in old(nodes) && nodes == old(nodes) && conn.subscriptions == old(conn.subscriptions)
    {
      var prev: Node?<DeviceSubscription> := null;
      var cursor := subscriptions;
      k := 0;
      while cursor != null && cursor != handle
        invariant k <= |nodes| && cursor == if k == |nodes| then null else nodes[k]
        invariant prev == if k == 0 then null else nodes[k - 1]
        invariant forall i :: 0 <= i < k ==> nodes[i] != handle
        decreases |nodes| - k
      {
        prev, cursor := cursor, cursor.next;
        k := k + 1;
      }
      if cursor != null {
        RemoveAt(prev, cursor, k);
      }
    }

    method RemoveFirst()
      requires Valid() && nodes != []
      modifies this`subscriptions, this`subscriptionsTail, this`nodes, nodes
      modifies conn`subscription, conn`subscriptionListTail, conn`subscriptions, conn`state, conn.subscriptions
      ensures Valid() && OnlySubs(old(conn.state), conn.state)
      ensures nodes == old(nodes)[1..] && conn.subscriptions == old(conn.subscriptions)[1..]
    {
      RemoveAt(null, subscriptions, 0);
    }

    /** The loop of mdr_device_free and mdr_device_close: the connection's list ends up empty. */
    method RemoveAll()
      requires Valid()
      modifies this`subscriptions, this`subscriptionsTail, this`nodes, nodes
      modifies conn`subscription, conn`subscriptionListTail, conn`subscriptions, conn`state, conn.subscriptions
      ensures Valid() && nodes == [] && conn.subscriptions == [] && OnlySubs(old(conn.state), conn.state)
    {
      ghost var k := 0;
      while subscriptions != null
        invariant Valid() && k <= |old(nodes)|
        invariant nodes == old(nodes)[k..] && conn.subscriptions == old(conn.subscriptions)[k..]
        invariant OnlySubs(old(conn.state), conn.state)
        decreases |nodes|
      {
        RemoveFirst();
        k := k + 1;
      }
    }

    /** The switch of mdr_device_init_result_supported_function. */
    method NoteOne(t: byte)
      modifies this`supported
      ensures forall f :: f in supported <==> f in old(supported) || t in SetBy(f)
    {
      match t {
        case 0x21 => supported := supported + {PowerOff};
        case 0x11 => supported := supported + {Battery};
        case 0x15 => supported := supported + {LeftRightBattery};
        case 0x18 => supported := supported + {CradleBattery};
        case 0x61 => supported := supported + {NoiseCancelling};
        case 0x63 => supported := supported + {AmbientSoundMode};
        case 0x62 => supported := supported + {NoiseCancelling, AmbientSoundMode};
        case 0x17 => supported := supported + {LeftRightConnectionStatus};
        case 0x51 => supported := supported + {Eq};
        case 0x53 => supported := supported + {EqNonCustomizable};
        case 0xf4 => supported := supported + {AutoPowerOff};
        case 0xa1 => supported := supported + {PlaybackController};
        case 0xf6 => supported := supported + {AssignableSettings};
        case _ =>
      }
    }

    /** The loop of mdr_device_init_result_supported_function; a fresh device has no flag set. */
    method NoteSupported(types: seq<byte>)
      modifies this`supported
      ensures Describes(supported, old(supported), types)
    {
      for i := 0 to |types|
        invariant Describes(supported, old(supported), types[..i])
      {
        ghost var soFar := supported;
        NoteOne(types[i]);
        DescribesOneMore(old(supported), soFar, supported, types, i);
      }
      assert types[..|types|] == types;
    }
  }

  lemma DescribesOneMore(before: set<Flag>, soFar: set<Flag>, after: set<Flag>, types: seq<byte>, i: nat)
    requires i < |types| && Describes(soFar, before, types[..i])
    requires forall f :: f in after <==> f in soFar || types[i] in SetBy(f)
    ensures Describes(after, before, types[..i + 1])
  {
    var shorter, longer := types[..i], types[..i + 1];
    forall f
      ensures f in after <==> f in before || Names(longer, f)
    {
      if Names(shorter, f) {
        var k :| 0 <= k < |shorter| && shorter[k] in SetBy(f);
        assert longer[k] in SetBy(f);
      } else if types[i] in SetBy(f) {
        assert longer[i] in SetBy(f);
      } else {
        assert forall k :: 0 <= k < |longer| ==> longer[k] == if k < i then shorter[k] else types[i];
      }
    }
  }
}
