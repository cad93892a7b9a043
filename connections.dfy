/** The live-channel registry: one channel per user id. Whether a send over a channel
    fails is an input (`failing`, the channels that are closed or broken at that moment);
    the message content and its JSON encoding are not modelled. */
module Connections {

  /** An accepted WebSocket, identified by an opaque handle. */
  datatype Channel = Channel(handle: nat)

  /** The entries of `m` whose channel is not failing. */
  function Healthy(m: map<string, Channel>, failing: set<Channel>): (r: map<string, Channel>)
    ensures r.Keys <= m.Keys
    ensures forall u :: u in r ==> r[u] == m[u] && m[u] !in failing
    ensures forall u :: u in m && m[u] !in failing ==> u in r
  {
    map u | u in m && m[u] !in failing :: m[u]
  }

  class ConnectionManager {
    var active: map<string, Channel>

    constructor ()
      ensures active == map[]
    {
      active := map[];
    }

    /** Registers `ch` for `userId`, replacing any earlier channel of that id. */
    method Connect(ch: Channel, userId: string)
      modifies this
      ensures active == old(active)[userId := ch]
      ensures userId in active && active[userId] == ch
    {
      active := active[userId := ch];
    }

    /** Removes the entry of `userId` if there is one. */
    method Disconnect(userId: string)
      modifies this
      ensures active == old(active) - {userId}
    {
      if userId in active {
        active := active - {userId};
      }
    }

    /** Sends to `userId` if connected; a failed send drops that id and nothing else.
        `delivered` tells whether the message reached a channel. */
    method SendPersonalMessage(userId: string, failing: set<Channel>) returns (delivered: bool)
      modifies this
      ensures delivered <==> userId in old(active) && old(active)[userId] !in failing
      ensures active == if userId in old(active) && !delivered then old(active) - {userId}
                        else old(active)
    {
      delivered := false;
      if userId in active {
        if active[userId] in failing {
          Disconnect(userId);
        } else {
          delivered := true;
        }
      }
    }

    /** Sends to every connected id. The ids whose send fails are collected during the
        pass and removed after it; every other entry stays as it was. */
    method BroadcastLeaderboard(failing: set<Channel>) returns (delivered: set<string>)
      modifies this
      ensures active == Healthy(old(active), failing)
      ensures delivered == active.Keys
    {
      var pending := active.Keys;
      var disconnected: seq<string> := [];
      delivered := {};
      while pending != {}
        invariant pending <= active.Keys && active == old(active)
        invariant forall u :: u in disconnected <==> u in active && u !in pending && active[u] in failing
        invariant forall u :: u in delivered <==> u in active && u !in pending && active[u] !in failing
        decreases pending
      {
        var userId :| userId in pending;
        if active[userId] in failing {
          disconnected := disconnected + [userId];
        } else {
          delivered := delivered + {userId};
        }
        pending := pending - {userId};
      }
      var i := 0;
      while i < |disconnected|
        invariant 0 <= i <= |disconnected|
        invariant active == old(active) - set k | 0 <= k < i :: disconnected[k]
      {
        Disconnect(disconnected[i]);
        i := i + 1;
      }
      assert (set k | 0 <= k < |disconnected| :: disconnected[k]) == old(active).Keys - delivered;
    }
  }

  /** A later connection under the same id replaces the earlier one; disconnecting twice
      is disconnecting once; after a broadcast a broken channel receives nothing more. */
  method ManagerScenario(a: Channel, b: Channel, failing: set<Channel>)
    requires a != b && a in failing && b !in failing
  {
    var m := new ConnectionManager();
    m.Connect(a, "alice");
    m.Connect(b, "alice");
    assert m.active == map["alice" := b];
    m.Disconnect("alice");
    m.Disconnect("alice");
    assert m.active == map[];
    m.Connect(a, "alice");
    m.Connect(b, "bob");
    var first := m.BroadcastLeaderboard(failing);
    assert first == {"bob"} by {
      assert Healthy(map["alice" := a, "bob" := b], failing) == map["bob" := b];
    }
    var second := m.BroadcastLeaderboard({});
    assert "alice" !in second;
  }
}
