/**
  The two observer protocols of the app (`MessageObservable`,
  `MessageObserverProtocol`): an observer exposes an identifier and reacts to
  `observe(message:)`. Identifiers are UUIDs in the app; here they are an
  opaque type whose only operation is equality.
 */
module Observer {

  /** The `identifier: UUID` an observer exposes to its publisher. */
  type Id(==)

  /** One call `observe(message:)` made by the publisher on the observer with identifier `observer`. */
  datatype Notification = Notification(observer: Id, message: string)

  /** The observers addressed by a log of notifications, in call order. */
  function Recipients(log: seq<Notification>): (ids: seq<Id>)
    ensures |ids| == |log|
    ensures forall i :: 0 <= i < |log| ==> ids[i] == log[i].observer
  {
    if log == [] then [] else [log[0].observer] + Recipients(log[1..])
  }

  /** No identifier occurs twice. */
  predicate Distinct(ids: seq<Id>)
  {
    forall i, j :: 0 <= i < j < |ids| ==> ids[i] != ids[j]
  }
}
