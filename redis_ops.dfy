/** The Redis operations the job-state store relies on (`RedisOpsUtils`),
    over an in-memory store: string keys holding a value and the TTL it was
    written with, and sorted sets mapping members to integer scores. */
module RedisOps {
  import opened Wrappers

  /** A stored value and the TTL, in seconds, of the write that stored it. */
  datatype Entry<V> = Entry(value: V, ttlSeconds: int)

  /** The least score among the members, if any. */
  predicate IsLeast(scores: map<string, int>, member: string)
  {
    member in scores && forall m :: m in scores ==> scores[member] <= scores[m]
  }

  class RedisStore<V> {
    var kv: map<string, Entry<V>>
    var zsets: map<string, map<string, int>>

    constructor ()
      ensures kv == map[] && zsets == map[]
    {
      kv := map[];
      zsets := map[];
    }

    /** `get(key)`: the stored value, null when the key is absent. */
    function Get(key: string): (r: Option<V>)
      reads this
      ensures r.Some? <==> key in kv
      ensures r.Some? ==> r.value == kv[key].value
    {
      if key in kv then Some(kv[key].value) else None
    }

    /** `setWithExpire(key, value, ttl)`: overwrites the key. */
    method SetWithExpire(key: string, value: V, ttlSeconds: int)
      modifies this
      ensures kv == old(kv)[key := Entry(value, ttlSeconds)]
      ensures zsets == old(zsets)
    {
      kv := kv[key := Entry(value, ttlSeconds)];
    }

    /** `del(key)`: removes the key; true when it was there. */
    method Del(key: string) returns (existed: bool)
      modifies this
      ensures existed <==> key in old(kv)
      ensures kv == old(kv) - {key}
      ensures zsets == old(zsets)
    {
      existed := key in kv;
      kv := kv - {key};
    }

    /** The members and scores of the sorted set at `key` (empty if none). */
    function Members(key: string): map<string, int>
      reads this
    {
      if key in zsets then zsets[key] else map[]
    }

    /** `zAdd(key, member, score)`: inserts the member or updates its
        score; true when the member is new. */
    method ZAdd(key: string, member: string, score: int) returns (added: bool)
      modifies this
      ensures added <==> member !in old(Members(key))
      ensures zsets == old(zsets)[key := old(Members(key))[member := score]]
      ensures kv == old(kv)
    {
      var members := Members(key);
      added := member !in members;
      zsets := zsets[key := members[member := score]];
    }

    /** `zGetMin(key)`: a member with the least score, null for an empty
        or absent set. */
    method ZGetMin(key: string) returns (r: Option<string>)
      ensures r.None? <==> Members(key) == map[]
      ensures r.Some? ==> IsLeast(Members(key), r.value)
    {
      var members := Members(key);
      var rest := members.Keys;
      var least := 0;
      r := None;
      while rest != {}
        invariant rest <= members.Keys
        invariant r.None? ==> rest == members.Keys
        invariant r.Some? ==> r.value in members && members[r.value] == least
        invariant r.Some? ==> forall m :: m in members && m !in rest ==> least <= members[m]
        decreases |rest|
      {
        var m :| m in rest;
        if r.None? || members[m] < least {
          r := Some(m);
          least := members[m];
        }
        rest := rest - {m};
      }
      if r.None? {
        assert forall m :: m in members ==> m in rest;
      }
    }

    /** `zScore(key, member)`: the member's score, null when absent. */
    function ZScore(key: string, member: string): (r: Option<int>)
      reads this
      ensures r.Some? <==> member in Members(key)
      ensures r.Some? ==> r.value == Members(key)[member]
    {
      if member in Members(key) then Some(Members(key)[member]) else None
    }

    /** `zRemove(key, member)`: removes the member; true when it was there. */
    method ZRemove(key: string, member: string) returns (removed: bool)
      modifies this
      ensures removed <==> member in old(Members(key))
      ensures zsets == old(zsets)[key := old(Members(key)) - {member}]
      ensures kv == old(kv)
    {
      var members := Members(key);
      removed := member in members;
      zsets := zsets[key := members - {member}];
    }
  }
}
