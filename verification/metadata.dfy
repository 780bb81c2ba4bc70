/**
  The data carried by a node's metadata tree: plain string values, named
  tree nodes, and external resources with their optional reservation.
 */
module Metadata {
  import opened Wrappers

  /** Who made a reservation: the scheduler itself or a third party. */
  datatype StashType = Internal | External

  /** The time window of a reservation. The creation time is an opaque clock
      reading and the expiry is an opaque label; nothing here inspects either. */
  datatype Lease = Lease(createdAt: int, expires: string)

  /** A reservation record: how, by whom, for how long, and with which key. */
  datatype Stash = Stash(stashType: StashType, holder: string, lease: Lease, key: string)

  /** One value of a metadata tree. */
  datatype Value =
    | Str(name: string, value: string)
    | Tree(name: string, children: seq<Value>)
    | Resource(id: string, description: string, deviceId: string, enabled: bool,
               reserved: Option<Stash>, children: seq<Value>)

  /** `v` is an external resource carrying the identifier `id`. */
  predicate HasId(v: Value, id: string) {
    v.Resource? && v.id == id
  }

  /** A resource may be handed out: it is enabled and nobody holds it. */
  predicate Available(v: Value) {
    v.Resource? && v.enabled && v.reserved.None?
  }

  /** The two-argument resource constructor: a fresh resource with the given
      identifier and device identifier and nothing else set. */
  function NewResource(id: string, deviceId: string): (r: Value)
    ensures r.Resource? && r.id == id && r.deviceId == deviceId
    ensures Available(r)
    ensures r.children == []
  {
    Resource(id, "", deviceId, true, None, [])
  }

  /** The five-argument resource constructor: unreserved, with the given
      enabled flag and children. */
  function NewResourceWith(id: string, description: string, deviceId: string, enabled: bool,
                           children: seq<Value>): (r: Value)
    ensures r.Resource? && r.id == id && r.description == description && r.deviceId == deviceId
    ensures r.reserved.None? && r.children == children
    ensures Available(r) <==> enabled
  {
    Resource(id, description, deviceId, enabled, None, children)
  }
}
