/**
  The administrative command helpers: find a resource by node name and
  resource identifier, and force the release of its reservation.
 */
module ErCliUtils {
  import opened Wrappers
  import opened Metadata
  import opened AvailabilityFilter
  import opened Reservation

  /** The host's node registry: each node name mapped to the values beneath
      that node's metadata property. */
  type Fleet = map<string, seq<Value>>

  /** The two command-line errors of the lookup. */
  datatype Err = NoNode | NoResource

  /** The state after a forced release, and the state handed to the host's
      save, if a save was requested. */
  datatype Released = Released(fleet: Fleet, persisted: Option<Fleet>)

  /** Looks the node up by name, then the resource on it by identifier. */
  function FindExternalResource(fleet: Fleet, nodeName: string, id: string): (r: Result<Value, Err>)
    ensures r == Failure(NoNode) <==> nodeName !in fleet
    ensures r == Failure(NoResource) <==> nodeName in fleet && !Contains(Collect(fleet[nodeName]), id)
    ensures r.Success? ==> r.value.Resource? && r.value.id == id && r.value in Collect(fleet[nodeName])
    ensures r.Success? ==> FindById(fleet[nodeName], id) == Some(r.value)
  {
    if nodeName in fleet then
      match FindById(fleet[nodeName], id)
      case Some(resource) => Success(resource)
      case None => Failure(NoResource)
    else
      Failure(NoNode)
  }

  /** Force release: clear the reservation of the resource the lookup finds,
      whoever holds it, then ask the host to save if there is a host. */
  function UnSetReservation(fleet: Fleet, nodeName: string, id: string, hostPresent: bool)
    : (r: Result<Released, Err>)
    ensures r == Failure(NoNode) <==> nodeName !in fleet
    ensures r == Failure(NoResource) <==> nodeName in fleet && !Contains(Collect(fleet[nodeName]), id)
    ensures r.Success? ==> r.value.fleet.Keys == fleet.Keys
    ensures r.Success? ==> forall n :: n in fleet && n != nodeName ==> r.value.fleet[n] == fleet[n]
    ensures r.Success? ==>
      var target := FindExternalResource(fleet, nodeName, id).value;
      FindById(r.value.fleet[nodeName], id) == Some(target.(reserved := None))
    ensures r.Success? ==> Erase(r.value.fleet[nodeName]) == Erase(fleet[nodeName])
    ensures r.Success? ==>
      ReleasedAt(Collect(fleet[nodeName]), Collect(r.value.fleet[nodeName]),
                 IndexOf(Collect(fleet[nodeName]), id).value)
    ensures r.Success? ==> r.value.persisted == (if hostPresent then Some(r.value.fleet) else None)
  {
    match FindExternalResource(fleet, nodeName, id)
    case Failure(e) => Failure(e)
    case Success(_) =>
      var before := fleet[nodeName];
      var after := ClearFirst(before, id).0;
      ClearFirstFind(before, id);
      ClearFirstKeepsShape(before, id);
      ClearFirstCollect(before, id);
      var fleet' := fleet[nodeName := after];
      Success(Released(fleet', if hostPresent then Some(fleet') else None))
  }

  /** Releasing twice is releasing once: the second release finds the
      resource unreserved and changes nothing. */
  lemma UnSetReservationIdempotent(fleet: Fleet, nodeName: string, id: string, hostPresent: bool)
    requires UnSetReservation(fleet, nodeName, id, hostPresent).Success?
    ensures var once := UnSetReservation(fleet, nodeName, id, hostPresent).value;
            UnSetReservation(once.fleet, nodeName, id, hostPresent) == Success(once)
  {
    var once := UnSetReservation(fleet, nodeName, id, hostPresent).value;
    var after := once.fleet[nodeName];
    ClearFirstUnreserved(after, id);
    assert once.fleet[nodeName := after] == once.fleet;
  }
}
