/** `TakeoffStatusEnum`: the six stages of a one-key takeoff job, each with
    the status string the dock reports and a human-readable message. */
module TakeoffStatus {
  import opened Wrappers

  datatype TakeoffStatusEnum =
    | TaskReady
    | WaylineProgress
    | WaylineFailed
    | WaylineOk
    | WaylineCancel
    | TaskFinish

  /** `values()`: the constants in declaration order. */
  const Values: seq<TakeoffStatusEnum> :=
    [TaskReady, WaylineProgress, WaylineFailed, WaylineOk, WaylineCancel, TaskFinish]

  /** `getStatus`: the first constructor argument. */
  function Status(e: TakeoffStatusEnum): string
  {
    match e
    case TaskReady => "task_ready"
    case WaylineProgress => "wayline_progress"
    case WaylineFailed => "wayline_failed"
    case WaylineOk => "wayline_ok"
    case WaylineCancel => "wayline_cancel"
    case TaskFinish => "task_finish"
  }

  /** `getMessage`: the second constructor argument. */
  function Message(e: TakeoffStatusEnum): string
  {
    match e
    case TaskReady => "The drone is preparing to take off."
    case WaylineProgress => "The drone is taking off."
    case WaylineFailed => "The drone failed to take off."
    case WaylineOk => "The drone took off successfully."
    case WaylineCancel => "The drone takeoff job has been cancelled."
    case TaskFinish => "The drone takeoff job is completed."
  }

  /** The stream filter over `vs`: a constant whose status equals `status`
      (`String.equals(null)` is false, so a null status matches nothing). */
  function FindAmong(vs: seq<TakeoffStatusEnum>, status: Option<string>): (r: Option<TakeoffStatusEnum>)
    ensures r.Some? ==> r.value in vs && status == Some(Status(r.value))
    ensures r.None? ==> forall i :: 0 <= i < |vs| ==> status != Some(Status(vs[i]))
  {
    if vs == [] then None
    else if status == Some(Status(vs[0])) then Some(vs[0])
    else
      var r := FindAmong(vs[1..], status);
      assert forall i :: 1 <= i < |vs| ==> vs[i] == vs[1..][i - 1];
      r
  }

  /** `find(status)`: the constant reporting `status`, or
      `NoSuchElementException` for any other string, a case variant or null. */
  function Find(status: Option<string>): (r: Result<TakeoffStatusEnum, NoSuchElementException>)
    ensures r.Success? ==> status == Some(Status(r.value))
    ensures r.Failure? <==> forall e: TakeoffStatusEnum :: status != Some(Status(e))
  {
    match FindAmong(Values, status)
    case Some(e) => Success(e)
    case None =>
      assert forall e: TakeoffStatusEnum :: status != Some(Status(e)) by {
        forall e: TakeoffStatusEnum ensures status != Some(Status(e)) {
          var i := ValuesIndex(e);
          assert status != Some(Status(Values[i]));
        }
      }
      Failure(NoSuchElementException)
  }

  function ValuesIndex(e: TakeoffStatusEnum): (i: nat)
    ensures i < |Values| && Values[i] == e
  {
    match e
    case TaskReady => 0
    case WaylineProgress => 1
    case WaylineFailed => 2
    case WaylineOk => 3
    case WaylineCancel => 4
    case TaskFinish => 5
  }

  /** Six constants, and no two of them report the same status. */
  lemma StatusesDistinct()
    ensures |Values| == 6
    ensures forall i, j :: 0 <= i < j < |Values| ==> Values[i] != Values[j]
    ensures forall a: TakeoffStatusEnum, b: TakeoffStatusEnum :: Status(a) == Status(b) ==> a == b
  {
    forall a: TakeoffStatusEnum, b: TakeoffStatusEnum | a != b
      ensures Status(a) != Status(b)
    {
      // Status strings differ in length or in one of their first letters.
      var sa, sb := Status(a), Status(b);
      if |sa| == |sb| {
        assert sa[5] != sb[5] || sa[0] != sb[0] || sa[8] != sb[8];
      }
    }
  }

  /** `getMessage`: every message is a sentence about the drone. */
  lemma MessageIsSentence(e: TakeoffStatusEnum)
    ensures |Message(e)| > 10 && Message(e)[..10] == "The drone " && Message(e)[|Message(e)| - 1] == '.'
  {
    match e
    case TaskReady =>
    case WaylineProgress =>
    case WaylineFailed =>
    case WaylineOk =>
    case WaylineCancel =>
    case TaskFinish =>
  }

  /** No two constants share a message, so a message names its constant. */
  lemma MessagesDistinct(a: TakeoffStatusEnum, b: TakeoffStatusEnum)
    requires a != b
    ensures Message(a) != Message(b)
  {
    // Messages of equal length differ right after "The drone ".
    if |Message(a)| == |Message(b)| {
      assert Message(a)[10] != Message(b)[10];
    }
  }

  /** `find(e.getStatus()) == e` for every constant. */
  lemma FindStatus(e: TakeoffStatusEnum)
    ensures Find(Some(Status(e))) == Success(e)
  {
    StatusesDistinct();
  }

  /** Every status is written in lower-case letters and underscores. */
  lemma StatusIsLowerCase(e: TakeoffStatusEnum)
    ensures forall i :: 0 <= i < |Status(e)| ==> 'a' <= Status(e)[i] <= 'z' || Status(e)[i] == '_'
  {
    match e
    case TaskReady =>
    case WaylineProgress =>
    case WaylineFailed =>
    case WaylineOk =>
    case WaylineCancel =>
    case TaskFinish =>
  }

  /** So a string holding an ASCII upper-case letter A-Z anywhere (such as
      a constant's name) matches no constant; neither does null. */
  lemma FindIsCaseSensitive(s: string, k: nat)
    requires k < |s| && 'A' <= s[k] <= 'Z'
    ensures Find(Some(s)).Failure?
    ensures Find(None).Failure?
  {
    forall e: TakeoffStatusEnum ensures Some(s) != Some(Status(e)) {
      StatusIsLowerCase(e);
      assert k >= |Status(e)| || Status(e)[k] != s[k];
    }
  }
}
