/** An operation of the registry runs an ordered chain of guards, each paired with the error code it
    reports; the first guard that does not hold decides the result. */
module GuardChain {
  import opened ReleaseTypes

  datatype Guard = Guard(holds: bool, code: int)

  /** The code of the first guard in the chain that does not hold, or None when every guard holds. */
  function FirstFailure(guards: seq<Guard>): (r: Option<int>)
    ensures r.None? <==> forall i :: 0 <= i < |guards| ==> guards[i].holds
    ensures forall k :: 0 <= k < |guards| && !guards[k].holds && (forall j :: 0 <= j < k ==> guards[j].holds) ==>
              r == Some(guards[k].code)
  {
    if |guards| == 0 then None
    else if !guards[0].holds then Some(guards[0].code)
    else FirstFailure(guards[1..])
  }
}
