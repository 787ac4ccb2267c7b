/** `WaylineRedisServiceImpl`: the job-state store of the wayline module.
    Per dock it keeps one running, one paused and one blocked slot; per job
    id a conditional job; and one global sorted set of prepared jobs scored
    by their begin time. */
module WaylineRedis {
  import opened Wrappers
  import JavaStrings
  import opened RedisOps

  /** The MQTT progress event of a running job, kept as an opaque value. */
  datatype EventsReceiver = EventsReceiver(payload: string)

  /** A `LocalDateTime`, as nanoseconds on the local time line. */
  datatype LocalDateTime = LocalDateTime(nanos: int)

  /** The fields of `WaylineJobDTO` the store reads; each may be null. */
  datatype WaylineJobDTO = WaylineJobDTO(
    jobId: Option<string>,
    workspaceId: Option<string>,
    dockSn: Option<string>,
    beginTime: Option<LocalDateTime>,
    endTime: Option<LocalDateTime>)

  /** What the service writes under a key: the Redis value is an untyped
      `Object`, read back with a cast. */
  datatype StoredValue = Progress(receiver: EventsReceiver) | JobId(id: string) | Job(job: WaylineJobDTO)

  /** `WaylineJobKey`, wrapping a prepared-set member. */
  datatype WaylineJobKey = WaylineJobKey(key: string)

  /** A cast that does not match what is stored; the `RuntimeException`
      for a job id without text; a null dereference. */
  datatype ServiceError = ClassCast | JobIdMissing | NullPointer

  /** The `RedisConst` values the service uses. */
  datatype RedisConst = RedisConst(
    runningPrefix: string,
    pausedPrefix: string,
    blockPrefix: string,
    conditionPrefix: string,
    prepared: string,
    delimiter: string,
    drcModeAliveSecond: int,
    waylineJobBlockTime: int)

  const NanosPerSecond: int := 1_000_000_000

  /** `Math.abs(Duration.between(endTime, now).getSeconds())`: the whole
      seconds from `endTime` to `now`, rounded toward the past, made
      non-negative. A job that ended in the past is kept for as long ago as
      it ended (rounded down); one that ends in the future until its end
      (rounded up). */
  function ConditionalTtl(endTime: LocalDateTime, now: LocalDateTime): (ttl: int)
    ensures ttl >= 0
    ensures endTime.nanos <= now.nanos ==>
      ttl * NanosPerSecond <= now.nanos - endTime.nanos < (ttl + 1) * NanosPerSecond
    ensures now.nanos < endTime.nanos ==>
      (ttl - 1) * NanosPerSecond < endTime.nanos - now.nanos <= ttl * NanosPerSecond
  {
    var seconds := (now.nanos - endTime.nanos) / NanosPerSecond;
    if seconds < 0 then -seconds else seconds
  }

  /** The TTL is zero exactly when the end time is equal to now or less
      than a second before it; an end time in the future always gives at
      least one second. */
  lemma ConditionalTtlZero(endTime: LocalDateTime, now: LocalDateTime)
    ensures ConditionalTtl(endTime, now) == 0 <==> 0 <= now.nanos - endTime.nanos < NanosPerSecond
    ensures now.nanos < endTime.nanos ==> ConditionalTtl(endTime, now) >= 1
  {
  }

  /** The prepared-set member `{workspace_id}:{dock_sn}:{job_id}`; a null
      part is written as "null", as Java's string concatenation does. */
  function PreparedMember(job: WaylineJobDTO, delimiter: string): (m: string)
    ensures |m| == |JavaStrings.ValueOf(job.workspaceId)| + |JavaStrings.ValueOf(job.dockSn)|
                   + |JavaStrings.ValueOf(job.jobId)| + 2 * |delimiter|
  {
    JavaStrings.ValueOf(job.workspaceId) + delimiter + JavaStrings.ValueOf(job.dockSn)
      + delimiter + JavaStrings.ValueOf(job.jobId)
  }

  /** A slot key is its prefix followed by the dock serial number or job id,
      so distinct suffixes under one prefix never share a key. */
  lemma SlotKeyInjective(prefix: string, a: string, b: string)
    requires prefix + a == prefix + b
    ensures a == b
  {
    assert a == (prefix + a)[|prefix|..];
    assert b == (prefix + b)[|prefix|..];
  }

  /** Keys of two families collide only when one prefix is a prefix of the
      other: prefixes that are not never share a key, whatever the
      suffixes. */
  lemma FamiliesDisjoint(p: string, q: string, a: string, b: string)
    ensures p + a == q + b ==> p <= q || q <= p
  {
    if p + a == q + b {
      if |p| <= |q| {
        assert p == (p + a)[..|p|] == q[..|p|];
      } else {
        assert q == (q + b)[..|q|] == p[..|q|];
      }
    }
  }

  /** With a one-character delimiter that occurs in none of the three parts,
      the member splits back into workspace id, dock serial and job id. */
  lemma {:induction false} MemberFields(job: WaylineJobDTO, c: char)
    requires c !in JavaStrings.ValueOf(job.workspaceId)
    requires c !in JavaStrings.ValueOf(job.dockSn)
    requires c !in JavaStrings.ValueOf(job.jobId)
    ensures JavaStrings.Fields(PreparedMember(job, [c]), c)
      == [JavaStrings.ValueOf(job.workspaceId), JavaStrings.ValueOf(job.dockSn), JavaStrings.ValueOf(job.jobId)]
  {
    var parts :=
      [JavaStrings.ValueOf(job.workspaceId), JavaStrings.ValueOf(job.dockSn), JavaStrings.ValueOf(job.jobId)];
    assert parts[1..][1..] == [parts[2]];
    assert JavaStrings.Join(parts[1..], c) == parts[1] + [c] + parts[2];
    assert JavaStrings.Join(parts, c) == PreparedMember(job, [c]);
    JavaStrings.FieldsOfJoin(parts, c);
  }

  /** Under the same condition two jobs share a prepared-set member only
      when their three parts agree. */
  lemma {:induction false} MemberInjective(j1: WaylineJobDTO, j2: WaylineJobDTO, c: char)
    requires c !in JavaStrings.ValueOf(j1.workspaceId) && c !in JavaStrings.ValueOf(j1.dockSn)
    requires c !in JavaStrings.ValueOf(j1.jobId)
    requires c !in JavaStrings.ValueOf(j2.workspaceId) && c !in JavaStrings.ValueOf(j2.dockSn)
    requires c !in JavaStrings.ValueOf(j2.jobId)
    requires PreparedMember(j1, [c]) == PreparedMember(j2, [c])
    ensures JavaStrings.ValueOf(j1.workspaceId) == JavaStrings.ValueOf(j2.workspaceId)
    ensures JavaStrings.ValueOf(j1.dockSn) == JavaStrings.ValueOf(j2.dockSn)
    ensures JavaStrings.ValueOf(j1.jobId) == JavaStrings.ValueOf(j2.jobId)
  {
    MemberFields(j1, c);
    MemberFields(j2, c);
  }

  /** Without that condition the member is ambiguous: a workspace id that
      holds the delimiter reads as another workspace and dock. */
  lemma AmbiguousMember(w: string, d: string, j: string, jobId: Option<string>, delimiter: string)
    ensures PreparedMember(WaylineJobDTO(jobId, Some(w + delimiter + d), Some(j), None, None), delimiter)
         == PreparedMember(WaylineJobDTO(jobId, Some(w), Some(d + delimiter + j), None, None), delimiter)
  {
  }

  class WaylineRedisServiceImpl {
    const store: RedisStore<StoredValue>
    const keys: RedisConst
    /** `beginTime.atZone(ZoneId.systemDefault()).toInstant().toEpochMilli()`. */
    const toEpochMilli: LocalDateTime -> int

    constructor (store: RedisStore<StoredValue>, keys: RedisConst, toEpochMilli: LocalDateTime -> int)
      ensures this.store == store && this.keys == keys && this.toEpochMilli == toEpochMilli
    {
      this.store := store;
      this.keys := keys;
      this.toEpochMilli := toEpochMilli;
    }

    function RunningKey(dockSn: string): string { keys.runningPrefix + dockSn }
    function PausedKey(dockSn: string): string { keys.pausedPrefix + dockSn }
    function BlockedKey(dockSn: string): string { keys.blockPrefix + dockSn }
    function ConditionKey(jobId: string): string { keys.conditionPrefix + jobId }

    /** `getRunningWaylineJob`: empty when nothing is stored for the dock,
        the progress event when one is, a cast failure otherwise. */
    function GetRunningWaylineJob(dockSn: string): (r: Result<Option<EventsReceiver>, ServiceError>)
      reads store
      ensures r == Success(None) <==> RunningKey(dockSn) !in store.kv
      ensures forall e :: r == Success(Some(e)) <==> store.Get(RunningKey(dockSn)) == Some(Progress(e))
      ensures r.Failure? ==> r.error == ClassCast
    {
      match store.Get(RunningKey(dockSn))
      case None => Success(None)
      case Some(v) => if v.Progress? then Success(Some(v.receiver)) else Failure(ClassCast)
    }

    /** The `(String)` cast of `getPausedWaylineJobId` and
        `getBlockedWaylineJobId`: null when absent. */
    function GetJobId(key: string): (r: Result<Option<string>, ServiceError>)
      reads store
      ensures r == Success(None) <==> key !in store.kv
      ensures forall id :: r == Success(Some(id)) <==> store.Get(key) == Some(JobId(id))
      ensures r.Failure? ==> r.error == ClassCast
    {
      match store.Get(key)
      case None => Success(None)
      case Some(v) => if v.JobId? then Success(Some(v.id)) else Failure(ClassCast)
    }

    function GetPausedWaylineJobId(dockSn: string): (r: Result<Option<string>, ServiceError>)
      reads store
      ensures forall id :: r == Success(Some(id)) <==> store.Get(PausedKey(dockSn)) == Some(JobId(id))
    {
      GetJobId(PausedKey(dockSn))
    }

    function GetBlockedWaylineJobId(dockSn: string): (r: Result<Option<string>, ServiceError>)
      reads store
      ensures forall id :: r == Success(Some(id)) <==> store.Get(BlockedKey(dockSn)) == Some(JobId(id))
    {
      GetJobId(BlockedKey(dockSn))
    }

    /** `getConditionalWaylineJob`. */
    function GetConditionalWaylineJob(jobId: string): (r: Result<Option<WaylineJobDTO>, ServiceError>)
      reads store
      ensures r == Success(None) <==> ConditionKey(jobId) !in store.kv
      ensures forall j :: r == Success(Some(j)) <==> store.Get(ConditionKey(jobId)) == Some(Job(j))
      ensures r.Failure? ==> r.error == ClassCast
    {
      match store.Get(ConditionKey(jobId))
      case None => Success(None)
      case Some(v) => if v.Job? then Success(Some(v.job)) else Failure(ClassCast)
    }

    /** `setRunningWaylineJob`: the dock's running slot now holds `data`,
        with TTL `DRC_MODE_ALIVE_SECOND`; no other dock's slot changes. */
    method SetRunningWaylineJob(dockSn: string, data: EventsReceiver)
      modifies store
      ensures store.kv == old(store.kv)[RunningKey(dockSn) := Entry(Progress(data), keys.drcModeAliveSecond)]
      ensures store.zsets == old(store.zsets)
      ensures GetRunningWaylineJob(dockSn) == Success(Some(data))
      ensures forall d :: d != dockSn ==> GetRunningWaylineJob(d) == old(GetRunningWaylineJob(d))
    {
      store.SetWithExpire(RunningKey(dockSn), Progress(data), keys.drcModeAliveSecond);
      forall d | d != dockSn
        ensures RunningKey(d) != RunningKey(dockSn)
      {
        if RunningKey(d) == RunningKey(dockSn) {
          SlotKeyInjective(keys.runningPrefix, d, dockSn);
        }
      }
    }

    /** `delRunningWaylineJob`: true when the slot was occupied; afterwards
        the slot is empty. */
    method DelRunningWaylineJob(dockSn: string) returns (existed: bool)
      modifies store
      ensures existed <==> RunningKey(dockSn) in old(store.kv)
      ensures store.kv == old(store.kv) - {RunningKey(dockSn)}
      ensures store.zsets == old(store.zsets)
      ensures GetRunningWaylineJob(dockSn) == Success(None)
    {
      existed := store.Del(RunningKey(dockSn));
    }

    /** `setPausedWaylineJob`: TTL `DRC_MODE_ALIVE_SECOND`. */
    method SetPausedWaylineJob(dockSn: string, jobId: string)
      modifies store
      ensures store.kv == old(store.kv)[PausedKey(dockSn) := Entry(JobId(jobId), keys.drcModeAliveSecond)]
      ensures store.zsets == old(store.zsets)
      ensures GetPausedWaylineJobId(dockSn) == Success(Some(jobId))
      ensures forall d :: d != dockSn ==> GetPausedWaylineJobId(d) == old(GetPausedWaylineJobId(d))
    {
      store.SetWithExpire(PausedKey(dockSn), JobId(jobId), keys.drcModeAliveSecond);
      forall d | d != dockSn
        ensures PausedKey(d) != PausedKey(dockSn)
      {
        if PausedKey(d) == PausedKey(dockSn) {
          SlotKeyInjective(keys.pausedPrefix, d, dockSn);
        }
      }
    }

    method DelPausedWaylineJob(dockSn: string) returns (existed: bool)
      modifies store
      ensures existed <==> PausedKey(dockSn) in old(store.kv)
      ensures store.kv == old(store.kv) - {PausedKey(dockSn)}
      ensures store.zsets == old(store.zsets)
      ensures GetPausedWaylineJobId(dockSn) == Success(None)
    {
      existed := store.Del(PausedKey(dockSn));
    }

    /** `setBlockedWaylineJob`: TTL `WAYLINE_JOB_BLOCK_TIME`. */
    method SetBlockedWaylineJob(dockSn: string, jobId: string)
      modifies store
      ensures store.kv == old(store.kv)[BlockedKey(dockSn) := Entry(JobId(jobId), keys.waylineJobBlockTime)]
      ensures store.zsets == old(store.zsets)
      ensures GetBlockedWaylineJobId(dockSn) == Success(Some(jobId))
      ensures forall d :: d != dockSn ==> GetBlockedWaylineJobId(d) == old(GetBlockedWaylineJobId(d))
    {
      store.SetWithExpire(BlockedKey(dockSn), JobId(jobId), keys.waylineJobBlockTime);
      forall d | d != dockSn
        ensures BlockedKey(d) != BlockedKey(dockSn)
      {
        if BlockedKey(d) == BlockedKey(dockSn) {
          SlotKeyInjective(keys.blockPrefix, d, dockSn);
        }
      }
    }

    method DelBlockedWaylineJobId(dockSn: string) returns (existed: bool)
      modifies store
      ensures existed <==> BlockedKey(dockSn) in old(store.kv)
      ensures store.kv == old(store.kv) - {BlockedKey(dockSn)}
      ensures store.zsets == old(store.zsets)
      ensures GetBlockedWaylineJobId(dockSn) == Success(None)
    {
      existed := store.Del(BlockedKey(dockSn));
    }

    /** `setConditionalWaylineJob(waylineJob)` at time `now`: a job id that
        is null, empty or blank is refused and nothing is written; a null
        end time fails before the write; otherwise the job is stored under
        its id with TTL `ConditionalTtl(endTime, now)`. */
    method SetConditionalWaylineJob(waylineJob: WaylineJobDTO, now: LocalDateTime) returns (r: Outcome<ServiceError>)
      modifies store
      ensures store.zsets == old(store.zsets)
      ensures !JavaStrings.HasText(waylineJob.jobId) ==> r == Fail(JobIdMissing) && store.kv == old(store.kv)
      ensures JavaStrings.HasText(waylineJob.jobId) && waylineJob.endTime.None? ==>
        r == Fail(NullPointer) && store.kv == old(store.kv)
      ensures JavaStrings.HasText(waylineJob.jobId) && waylineJob.endTime.Some? ==>
        && r == Pass
        && store.kv == old(store.kv)[ConditionKey(waylineJob.jobId.value)
             := Entry(Job(waylineJob), ConditionalTtl(waylineJob.endTime.value, now))]
        && GetConditionalWaylineJob(waylineJob.jobId.value) == Success(Some(waylineJob))
    {
      if !JavaStrings.HasText(waylineJob.jobId) {
        return Fail(JobIdMissing);
      }
      if waylineJob.endTime.None? {
        return Fail(NullPointer);
      }
      var ttl := ConditionalTtl(waylineJob.endTime.value, now);
      store.SetWithExpire(ConditionKey(waylineJob.jobId.value), Job(waylineJob), ttl);
      r := Pass;
    }

    method DelConditionalWaylineJob(jobId: string) returns (existed: bool)
      modifies store
      ensures existed <==> ConditionKey(jobId) in old(store.kv)
      ensures store.kv == old(store.kv) - {ConditionKey(jobId)}
      ensures store.zsets == old(store.zsets)
      ensures GetConditionalWaylineJob(jobId) == Success(None)
    {
      existed := store.Del(ConditionKey(jobId));
    }

    /** `addPreparedWaylineJob`: false, with nothing written, for a null
        begin time; otherwise the job's member enters the prepared set (or
        has its score replaced) with the begin time in epoch milliseconds
        as score, and the result says whether the member is new. */
    method AddPreparedWaylineJob(waylineJob: WaylineJobDTO) returns (added: bool)
      modifies store
      ensures store.kv == old(store.kv)
      ensures waylineJob.beginTime.None? ==> !added && store.zsets == old(store.zsets)
      ensures waylineJob.beginTime.Some? ==>
        var member := PreparedMember(waylineJob, keys.delimiter);
        && (added <==> member !in old(store.Members(keys.prepared)))
        && store.zsets == old(store.zsets)[keys.prepared
             := old(store.Members(keys.prepared))[member := toEpochMilli(waylineJob.beginTime.value)]]
        && GetPreparedWaylineJobTime(WaylineJobKey(member)) == Some(toEpochMilli(waylineJob.beginTime.value))
    {
      if waylineJob.beginTime.None? {
        return false;
      }
      added := store.ZAdd(keys.prepared, PreparedMember(waylineJob, keys.delimiter),
                          toEpochMilli(waylineJob.beginTime.value));
    }

    /** `getNearestPreparedWaylineJob`: the key of a prepared job with the
        earliest begin time; empty exactly when no job is prepared. */
    method GetNearestPreparedWaylineJob() returns (r: Option<WaylineJobKey>)
      ensures r.None? <==> store.Members(keys.prepared) == map[]
      ensures r.Some? ==> IsLeast(store.Members(keys.prepared), r.value.key)
    {
      var least := store.ZGetMin(keys.prepared);
      r := if least.Some? then Some(WaylineJobKey(least.value)) else None;
    }

    /** `getPreparedWaylineJobTime`: the job's begin time in epoch
        milliseconds, null when the job is not prepared. */
    function GetPreparedWaylineJobTime(jobKey: WaylineJobKey): (r: Option<int>)
      reads store
      ensures r.Some? <==> jobKey.key in store.Members(keys.prepared)
      ensures r.Some? ==> r.value == store.Members(keys.prepared)[jobKey.key]
    {
      store.ZScore(keys.prepared, jobKey.key)
    }

    /** `removePreparedWaylineJob`: removes only the named member; true when
        it was prepared. */
    method RemovePreparedWaylineJob(jobKey: WaylineJobKey) returns (removed: bool)
      modifies store
      ensures removed <==> jobKey.key in old(store.Members(keys.prepared))
      ensures store.zsets == old(store.zsets)[keys.prepared := old(store.Members(keys.prepared)) - {jobKey.key}]
      ensures store.kv == old(store.kv)
      ensures GetPreparedWaylineJobTime(jobKey) == None
    {
      removed := store.ZRemove(keys.prepared, jobKey.key);
    }
  }
}
