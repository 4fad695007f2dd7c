/**
 The push-event bus: subscriptions indexed by id, by connection and by topic.  The three
 indexes always describe the same set of subscriptions.
 */
module EventBus {
  import opened Wrappers

  type SubId = nat
  type ConnId = nat

  datatype Registration = Registration(topic: string, conn_id: ConnId)

  // ----- One index: key to ids in subscription order.

  type Index<K> = map<K, seq<SubId>>

  ghost predicate Increasing(ids: seq<SubId>) {
    forall i, j :: 0 <= i < j < |ids| ==> ids[i] < ids[j]
  }

  function At<K(==)>(index: Index<K>, key: K): seq<SubId> {
    if key in index then index[key] else []
  }

  predicate Lists<K(==)>(index: Index<K>, key: K, id: SubId) {
    key in index && id in index[key]
  }

  /** The index lists exactly the ids of each key, once each, in subscription order, and has no empty list. */
  ghost predicate Indexes<K(!new)>(index: Index<K>, keys: map<SubId, K>) {
    && (forall key :: key in index ==> index[key] != [] && Increasing(index[key]))
    && (forall key, id :: Lists(index, key, id) <==> id in keys && keys[id] == key)
  }

  /** `entry(key).or_default().push(id)`. */
  function Push<K(==)>(index: Index<K>, key: K, id: SubId): Index<K> {
    index[key := At(index, key) + [id]]
  }

  /** `retain(|x| x != id)`. */
  function Without(ids: seq<SubId>, id: SubId): (r: seq<SubId>)
    ensures forall x :: x in r <==> x in ids && x != id
  {
    if ids == [] then [] else (if ids[0] == id then [] else [ids[0]]) + Without(ids[1..], id)
  }

  /** Take `id` out of the list of `key`, dropping a list that becomes empty. */
  function Drop<K(==)>(index: Index<K>, key: K, id: SubId): Index<K> {
    if key !in index then index
    else
      var ids := Without(index[key], id);
      if ids == [] then index - {key} else index[key := ids]
  }

  lemma IncreasingJoin(a: seq<SubId>, b: seq<SubId>)
    requires Increasing(a) && Increasing(b) && forall x, y :: x in a && y in b ==> x < y
    ensures Increasing(a + b)
  {
    forall i, j | 0 <= i < j < |a + b| ensures (a + b)[i] < (a + b)[j] {
      if i < |a| <= j {
        assert a[i] in a && b[j - |a|] in b;
      }
    }
  }

  lemma PushKeepsIndex<K(!new)>(index: Index<K>, keys: map<SubId, K>, key: K, id: SubId)
    requires Indexes(index, keys) && forall x :: x in keys ==> x < id
    ensures Indexes(Push(index, key, id), keys[id := key])
  {
    var index' := Push(index, key, id);
    if key in index {
      forall x | x in index[key] ensures x < id {
        assert Lists(index, key, x);
      }
      IncreasingJoin(index[key], [id]);
    }
    forall k, x ensures Lists(index', k, x) <==> x in keys[id := key] && keys[id := key][x] == k {
      assert Lists(index, k, x) <==> x in keys && keys[x] == k;
    }
  }

  lemma {:induction false} WithoutIncreasing(ids: seq<SubId>, id: SubId)
    requires Increasing(ids)
    ensures Increasing(Without(ids, id))
  {
    if ids != [] {
      WithoutIncreasing(ids[1..], id);
      forall x | x in Without(ids[1..], id) ensures ids[0] < x {
        assert x in ids[1..];
      }
      IncreasingJoin([ids[0]], Without(ids[1..], id));
    }
  }

  lemma DropKeepsIndex<K(!new)>(index: Index<K>, keys: map<SubId, K>, id: SubId)
    requires Indexes(index, keys) && id in keys
    ensures Indexes(Drop(index, keys[id], id), keys - {id})
  {
    var key := keys[id];
    assert Lists(index, key, id);
    var index' := Drop(index, key, id);
    WithoutIncreasing(index[key], id);
    forall k, x ensures Lists(index', k, x) <==> x in keys - {id} && keys[x] == k {
      assert Lists(index, k, x) <==> x in keys && keys[x] == k;
    }
  }

  function Topics(by_id: map<SubId, Registration>): map<SubId, string> {
    map id | id in by_id :: by_id[id].topic
  }

  function Conns(by_id: map<SubId, Registration>): map<SubId, ConnId> {
    map id | id in by_id :: by_id[id].conn_id
  }

  lemma KeysAfterInsert(by_id: map<SubId, Registration>, id: SubId, reg: Registration)
    ensures Topics(by_id[id := reg]) == Topics(by_id)[id := reg.topic]
    ensures Conns(by_id[id := reg]) == Conns(by_id)[id := reg.conn_id]
  {
  }

  ghost predicate Issued(issued: seq<SubId>, next_id: SubId, by_id: map<SubId, Registration>) {
    && Increasing(issued)
    && (forall id :: id in issued ==> id < next_id)
    && (forall id :: id in by_id ==> id in issued)
  }

  class EventBus {
    var by_id: map<SubId, Registration>
    var by_conn: Index<ConnId>
    var by_topic: Index<string>
    var next_id: SubId
    /** Every subscription id ever handed out. */
    ghost var issued: seq<SubId>

    ghost predicate Valid()
      reads this
    {
      && Indexes(by_topic, Topics(by_id))
      && Indexes(by_conn, Conns(by_id))
      && Issued(issued, next_id, by_id)
    }

    constructor ()
      ensures Valid() && by_id == map[] && issued == []
    {
      by_id, by_conn, by_topic, next_id, issued := map[], map[], map[], 0, [];
    }

    method Subscribe(topic: string, conn_id: ConnId) returns (id: SubId)
      requires Valid()
      modifies this
      ensures Valid() && id !in old(issued) && issued == old(issued) + [id]
      ensures by_id == old(by_id)[id := Registration(topic, conn_id)]
    {
      id := next_id;
      next_id := next_id + 1;
      PushKeepsIndex(by_conn, Conns(by_id), conn_id, id);
      PushKeepsIndex(by_topic, Topics(by_id), topic, id);
      KeysAfterInsert(by_id, id, Registration(topic, conn_id));
      IncreasingJoin(issued, [id]);
      by_id := by_id[id := Registration(topic, conn_id)];
      by_conn := Push(by_conn, conn_id, id);
      by_topic := Push(by_topic, topic, id);
      issued := issued + [id];
    }

    /** `detach`: the by-id entry is the caller's job. */
    method Detach(id: SubId, topic: string, conn_id: ConnId)
      modifies this`by_topic, this`by_conn
      ensures by_topic == Drop(old(by_topic), topic, id)
      ensures by_conn == Drop(old(by_conn), conn_id, id)
    {
      if topic in by_topic {
        by_topic := by_topic[topic := Without(by_topic[topic], id)];
        if by_topic[topic] == [] {
          by_topic := by_topic - {topic};
        }
      }
      if conn_id in by_conn {
        by_conn := by_conn[conn_id := Without(by_conn[conn_id], id)];
        if by_conn[conn_id] == [] {
          by_conn := by_conn - {conn_id};
        }
      }
    }

    method Unsubscribe(id: SubId) returns (existed: bool)
      requires Valid()
      modifies this`by_id, this`by_topic, this`by_conn
      ensures Valid()
      ensures existed <==> id in old(by_id)
      ensures by_id == old(by_id) - {id}
    {
      if id !in by_id {
        return false;
      }
      Forget(id);
      return true;
    }

    /** Remove the entry of `id` and detach it. */
    method Forget(id: SubId)
      requires Valid() && id in by_id
      modifies this`by_id, this`by_topic, this`by_conn
      ensures Valid() && by_id == old(by_id) - {id}
    {
      var reg := by_id[id];
      DropKeepsIndex(by_topic, Topics(by_id), id);
      DropKeepsIndex(by_conn, Conns(by_id), id);
      by_id := by_id - {id};
      Detach(id, reg.topic, reg.conn_id);
    }

    method RemoveConn(conn_id: ConnId)
      requires Valid()
      modifies this`by_id, this`by_topic, this`by_conn
      ensures Valid()
      ensures by_id == map id | id in old(by_id) && old(by_id)[id].conn_id != conn_id :: old(by_id)[id]
    {
      var ids := At(by_conn, conn_id);
      ConnListed(by_conn, by_id, conn_id);
      by_conn := by_conn - {conn_id};
      RemoveTopics(ids, conn_id);
      DropKeyKeepsIndex(old(by_conn), old(by_id), by_id, conn_id);
    }

    /** The loop of `remove_conn`; the connection's own list is already gone. */
    method RemoveTopics(ids: seq<SubId>, conn_id: ConnId)
      requires Indexes(by_topic, Topics(by_id)) && conn_id !in by_conn
      modifies this`by_id, this`by_topic, this`by_conn
      ensures Indexes(by_topic, Topics(by_id)) && by_conn == old(by_conn)
      ensures by_id == map id | id in old(by_id) && id !in ids :: old(by_id)[id]
    {
      for i := 0 to |ids|
        invariant Indexes(by_topic, Topics(by_id)) && by_conn == old(by_conn)
        invariant by_id == map id | id in old(by_id) && id !in ids[..i] :: old(by_id)[id]
      {
        var id := ids[i];
        assert ids[..i + 1] == ids[..i] + [id];
        if id in by_id {
          var reg := by_id[id];
          DropKeepsIndex(by_topic, Topics(by_id), id);
          by_id := by_id - {id};
          Detach(id, reg.topic, conn_id);
        }
      }
      assert ids[..|ids|] == ids;
    }

    /** The sending loop: who was reached, in order, and who failed. */
    method Send(ids: seq<SubId>, sends: SubId -> bool) returns (delivered: seq<SubId>, dead: seq<SubId>)
      requires Increasing(ids) && forall id :: id in ids ==> id in by_id
      ensures Increasing(delivered)
      ensures forall id :: id in delivered <==> id in ids && sends(id)
      ensures forall id :: id in dead <==> id in ids && !sends(id)
    {
      delivered, dead := [], [];
      for i := 0 to |ids|
        invariant Increasing(delivered)
        invariant forall id :: id in delivered <==> id in ids[..i] && sends(id)
        invariant forall id :: id in dead <==> id in ids[..i] && !sends(id)
      {
        assert ids[..i + 1] == ids[..i] + [ids[i]];
        if ids[i] in by_id && sends(ids[i]) {
          IncreasingJoin(delivered, [ids[i]]);
          delivered := delivered + [ids[i]];
        } else {
          dead := dead + [ids[i]];
        }
      }
      assert ids[..|ids|] == ids;
    }

    method ForgetAll(dead: seq<SubId>)
      requires Valid()
      modifies this`by_id, this`by_topic, this`by_conn
      ensures Valid() && by_id == map id | id in old(by_id) && id !in dead :: old(by_id)[id]
    {
      for i := 0 to |dead|
        invariant Valid()
        invariant by_id == map id | id in old(by_id) && id !in dead[..i] :: old(by_id)[id]
      {
        assert dead[..i + 1] == dead[..i] + [dead[i]];
        if dead[i] in by_id {
          Forget(dead[i]);
        }
      }
      assert dead[..|dead|] == dead;
    }

    /** Sends to every subscriber of the topic; the ones that fail are dropped, and nothing else is. */
    method Broadcast(topic: string, sends: SubId -> bool) returns (sent: nat, delivered: seq<SubId>)
      requires Valid()
      modifies this`by_id, this`by_topic, this`by_conn
      ensures Valid()
      ensures sent == |delivered| && Increasing(delivered)
      ensures forall id :: id in delivered <==> id in old(by_id) && old(by_id)[id].topic == topic && sends(id)
      ensures by_id == map id | id in old(by_id) && (old(by_id)[id].topic == topic ==> sends(id)) :: old(by_id)[id]
    {
      TopicListed(by_topic, by_id, topic);
      if topic !in by_topic {
        return 0, [];
      }
      var ids := by_topic[topic];
      assert ids == At(by_topic, topic);
      var dead;
      delivered, dead := Send(ids, sends);
      sent := |delivered|;
      ForgetAll(dead);
    }

    method HasTopic(topic: string) returns (r: bool)
      requires Valid()
      ensures r <==> exists id :: id in by_id && by_id[id].topic == topic
    {
      TopicListed(by_topic, by_id, topic);
      r := topic in by_topic && by_topic[topic] != [];
      if r {
        assert by_topic[topic][0] in At(by_topic, topic);
      }
    }
  }

  /** The list of one topic holds exactly its subscriptions. */
  lemma TopicListed(index: Index<string>, by_id: map<SubId, Registration>, topic: string)
    requires Indexes(index, Topics(by_id))
    ensures forall id :: id in At(index, topic) <==> id in by_id && by_id[id].topic == topic
  {
    forall id ensures id in At(index, topic) <==> id in by_id && by_id[id].topic == topic {
      assert Lists(index, topic, id) <==> id in Topics(by_id) && Topics(by_id)[id] == topic;
    }
  }

  lemma ConnListed(index: Index<ConnId>, by_id: map<SubId, Registration>, conn_id: ConnId)
    requires Indexes(index, Conns(by_id))
    ensures forall id :: id in At(index, conn_id) <==> id in by_id && by_id[id].conn_id == conn_id
  {
    forall id ensures id in At(index, conn_id) <==> id in by_id && by_id[id].conn_id == conn_id {
      assert Lists(index, conn_id, id) <==> id in Conns(by_id) && Conns(by_id)[id] == conn_id;
    }
  }

  lemma DropKeyKeepsIndex(index: Index<ConnId>, before: map<SubId, Registration>, after: map<SubId, Registration>,
                          conn_id: ConnId)
    requires Indexes(index, Conns(before))
    requires after == map id | id in before && before[id].conn_id != conn_id :: before[id]
    ensures Indexes(index - {conn_id}, Conns(after))
  {
    forall key, id ensures Lists(index - {conn_id}, key, id) <==> id in Conns(after) && Conns(after)[id] == key {
      assert Lists(index, key, id) <==> id in Conns(before) && Conns(before)[id] == key;
    }
  }

  /** An index is determined by the subscriptions it lists: nothing about the order of operations remains in it. */
  lemma IndexUnique<K(!new)>(a: Index<K>, b: Index<K>, keys: map<SubId, K>)
    requires Indexes(a, keys) && Indexes(b, keys)
    ensures a == b
  {
    forall key ensures key in a <==> key in b {
      if key in a { assert Lists(a, key, a[key][0]) && Lists(b, key, a[key][0]); }
      if key in b { assert Lists(b, key, b[key][0]) && Lists(a, key, b[key][0]); }
    }
    forall key | key in a ensures a[key] == b[key] {
      forall x ensures x in a[key] <==> x in b[key] {
        assert Lists(a, key, x) <==> Lists(b, key, x);
      }
      SameIncreasing(a[key], b[key]);
    }
  }

  lemma {:induction false} SameIncreasing(a: seq<SubId>, b: seq<SubId>)
    requires Increasing(a) && Increasing(b) && forall x :: x in a <==> x in b
    ensures a == b
  {
    var first := if b != [] then b[0] else 0;
    assert b != [] ==> first in b;
    if a != [] {
      assert a[0] in b && b != [] && b[0] in a;
      assert a[0] == b[0];
      forall x ensures x in a[1..] <==> x in b[1..] {
        assert x in a <==> x == a[0] || x in a[1..];
        assert x in b <==> x == b[0] || x in b[1..];
      }
      SameIncreasing(a[1..], b[1..]);
    }
  }
}
