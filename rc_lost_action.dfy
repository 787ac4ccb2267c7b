/** `WaylineRcLostActionEnum`: what the aircraft does on a wayline when the
    remote-controller link is lost; serialised as the constant's ordinal. */
module RcLostAction {
  import opened Wrappers

  datatype WaylineRcLostActionEnum = ContinueWayline | ExecuteRcLostAction

  /** `values()`: the constants in declaration order. */
  const Values: seq<WaylineRcLostActionEnum> := [ContinueWayline, ExecuteRcLostAction]

  /** `ordinal()`: the constant's position in `values()`. */
  function Ordinal(e: WaylineRcLostActionEnum): (n: nat)
    ensures n < |Values| && Values[n] == e
  {
    match e
    case ContinueWayline => 0
    case ExecuteRcLostAction => 1
  }

  /** `getVal`, the JSON value: the ordinal. */
  function GetVal(e: WaylineRcLostActionEnum): (v: int)
    ensures 0 <= v < |Values| && Values[v] == e
  {
    Ordinal(e)
  }

  /** The stream filter over `vs`: a constant whose ordinal is `val`. */
  function FindAmong(vs: seq<WaylineRcLostActionEnum>, val: int): (r: Option<WaylineRcLostActionEnum>)
    ensures r.Some? ==> r.value in vs && Ordinal(r.value) == val
    ensures r.None? ==> forall i :: 0 <= i < |vs| ==> Ordinal(vs[i]) != val
  {
    if vs == [] then None
    else if Ordinal(vs[0]) == val then Some(vs[0])
    else
      var r := FindAmong(vs[1..], val);
      assert forall i :: 1 <= i < |vs| ==> vs[i] == vs[1..][i - 1];
      r
  }

  /** `find(val)`: the constant with ordinal `val`; `NoSuchElementException`
      for every int outside 0 and 1. */
  function Find(val: int): (r: Result<WaylineRcLostActionEnum, NoSuchElementException>)
    ensures r.Success? <==> 0 <= val < |Values|
    ensures r.Success? ==> GetVal(r.value) == val && r.value == Values[val]
  {
    match FindAmong(Values, val)
    case Some(e) => Success(e)
    case None =>
      assert 0 <= val < |Values| ==> Ordinal(Values[val]) == val;
      Failure(NoSuchElementException)
  }

  /** `find(e.getVal()) == e` for both constants. */
  lemma FindGetVal(e: WaylineRcLostActionEnum)
    ensures Find(GetVal(e)) == Success(e)
  {
  }

  /** `find(v).getVal() == v` for v in {0, 1}, and the two values are the
      ordinals 0 and 1 in declaration order. */
  lemma GetValFind(v: int)
    requires v == 0 || v == 1
    ensures Find(v).Success? && GetVal(Find(v).value) == v
    ensures GetVal(ContinueWayline) == 0 && GetVal(ExecuteRcLostAction) == 1
  {
  }
}
