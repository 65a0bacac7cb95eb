/** The metadata record handed to every observer along with a mutation. */
module Reasons {
  import opened Wrappers

  /** The originating DOM event, kept as an opaque token. */
  type EventToken = nat

  /** The free-form `source` payload, kept as an opaque token. */
  type Payload = nat

  datatype ChangeReason = ChangeReason(event: Option<EventToken>, wasUser: bool, source: Option<Payload>)

  /** The `ChangeReason` constructor: `wasUser` defaults to whether an event
      is present, and an explicit `wasUser` wins over the event. */
  function NewChangeReason(event: Option<EventToken>, wasUser: Option<bool>, source: Option<Payload>): (r: ChangeReason)
    ensures r.event == event && r.source == source
    ensures wasUser.Some? ==> r.wasUser == wasUser.value
    ensures wasUser.None? ==> (r.wasUser <==> event.Some?)
  {
    ChangeReason(event, if wasUser.Some? then wasUser.value else event.Some?, source)
  }
}
