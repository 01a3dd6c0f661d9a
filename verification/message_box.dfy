/**
  `MessageBox`: the publisher. It keeps an ordered list of observers and the
  most recent message; every assignment of the message notifies all current
  observers, in list order. Observers are represented by their identifiers,
  which is all the registry ever inspects.
 */
module MessageBox {
  import opened Options
  import opened Observer

  /** The registry (`observers`) and the stored `recentMessage`. */
  datatype Box = Box(observers: seq<Id>, recentMessage: Option<string>)

  /** The state of a freshly created `MessageBox`: no observers, no message. */
  const Initial: Box := Box([], None)

  /** The state after an operation, with the `observe(message:)` calls it made, in order. */
  datatype Update = Update(box: Box, log: seq<Notification>)

  /** `observers` with every entry equal to `o` filtered out, the others kept in order. */
  function Without(observers: seq<Id>, o: Id): (r: seq<Id>)
    ensures o !in r
    ensures multiset(r) == multiset(observers)[o := 0]
  {
    if observers == [] then []
    else
      assert observers == [observers[0]] + observers[1..];
      if observers[0] == o then Without(observers[1..], o)
      else [observers[0]] + Without(observers[1..], o)
  }

  /** Filtering distributes over concatenation, so the kept entries stay in their original relative order. */
  lemma {:induction false} WithoutConcat(a: seq<Id>, b: seq<Id>, o: Id)
    ensures Without(a + b, o) == Without(a, o) + Without(b, o)
    decreases |a|
  {
    if a == [] {
      assert a + b == b;
    } else {
      assert (a + b)[1..] == a[1..] + b;
      WithoutConcat(a[1..], b, o);
    }
  }

  /** Filtering out an identifier changes nothing exactly when it is absent. */
  lemma {:induction false} WithoutAbsent(observers: seq<Id>, o: Id)
    ensures Without(observers, o) == observers <==> o !in observers
    decreases |observers|
  {
    if observers != [] && o !in observers {
      assert o !in observers[1..];
      WithoutAbsent(observers[1..], o);
      assert observers == [observers[0]] + observers[1..];
    }
  }

  /** The observers `observe(message:)` is called on when the message is set to `message`: each current observer once, in list order. */
  function FanOut(observers: seq<Id>, message: string): (log: seq<Notification>)
    ensures Recipients(log) == observers
    ensures forall i :: 0 <= i < |log| ==> log[i].message == message
  {
    if observers == [] then []
    else
      var log := [Notification(observers[0], message)] + FanOut(observers[1..], message);
      assert log[1..] == FanOut(observers[1..], message);
      assert Recipients(log) == [observers[0]] + observers[1..];
      log
  }

  /** `addObserver(with:)`: appends the observer; no notification is sent and the message is kept. */
  function AddObserver(b: Box, o: Id): (r: Update)
    ensures |r.box.observers| == |b.observers| + 1
    ensures r.box.observers[..|b.observers|] == b.observers
    ensures r.box.observers[|b.observers|] == o
    ensures r.box.recentMessage == b.recentMessage
    ensures r.log == []
  {
    Update(b.(observers := b.observers + [o]), [])
  }

  /** `removeObserver(with:)`: drops every entry carrying `o`'s identifier; no notification is sent. */
  function RemoveObserver(b: Box, o: Id): (r: Update)
    ensures o !in r.box.observers
    ensures multiset(r.box.observers) == multiset(b.observers)[o := 0]
    ensures o !in b.observers ==> r.box == b
    ensures r.box.recentMessage == b.recentMessage
    ensures r.log == []
  {
    WithoutAbsent(b.observers, o);
    Update(b.(observers := Without(b.observers, o)), [])
  }

  /**
    Assigning `recentMessage`: the value is stored, then `didSet` calls
    `observe(message:)` on every current observer in order, passing the
    stored value or `""` when it is nil.
   */
  function Assign(b: Box, v: Option<string>): (r: Update)
    ensures r.box.observers == b.observers
    ensures r.box.recentMessage == v
    ensures Recipients(r.log) == b.observers
    ensures forall i :: 0 <= i < |r.log| ==> r.log[i].message == v.GetOr("")
  {
    Update(b.(recentMessage := v), FanOut(b.observers, v.GetOr("")))
  }

  /**
    `updateMessage(to:)`: stores `message` and notifies every current
    observer once, in list order, with exactly `message` (the `""` fallback
    of `didSet` cannot be taken, since the value was just assigned).
   */
  function UpdateMessage(b: Box, message: string): (r: Update)
    ensures r.box.observers == b.observers
    ensures r.box.recentMessage == Some(message)
    ensures Recipients(r.log) == b.observers
    ensures forall i :: 0 <= i < |r.log| ==> r.log[i] == Notification(b.observers[i], message)
  {
    Assign(b, Some(message))
  }

  /** Removing an identifier twice is the same as removing it once. */
  lemma RemoveObserverIdempotent(b: Box, o: Id)
    ensures RemoveObserver(RemoveObserver(b, o).box, o) == RemoveObserver(b, o)
  {
  }

  /** Adding then removing an observer restores the box exactly when the identifier was not registered before. */
  lemma {:induction false} AddThenRemove(b: Box, o: Id)
    ensures RemoveObserver(AddObserver(b, o).box, o).box == b <==> o !in b.observers
  {
    WithoutConcat(b.observers, [o], o);
    assert Without([o], o) == [];
    WithoutAbsent(b.observers, o);
  }

  /** Adding an identifier that is already registered makes it appear once more, and the next update notifies it once per entry, so at least twice. */
  lemma DuplicateNotifiedTwice(b: Box, o: Id, message: string)
    requires o in b.observers
    ensures var u := UpdateMessage(AddObserver(b, o).box, message);
      && multiset(Recipients(u.log))[o] == multiset(b.observers)[o] + 1
      && multiset(Recipients(u.log))[o] >= 2
  {
  }

  /** With no duplicates, every registered observer receives exactly one notification per update, and nothing else is notified. */
  lemma UpdateNotifiesEachOnce(b: Box, message: string, o: Id)
    requires Distinct(b.observers)
    ensures var log := UpdateMessage(b, message).log;
      |set i | 0 <= i < |log| && log[i].observer == o| == (if o in b.observers then 1 else 0)
  {
    var log := UpdateMessage(b, message).log;
    var hits := set i | 0 <= i < |log| && log[i].observer == o;
    if o in b.observers {
      var k :| 0 <= k < |b.observers| && b.observers[k] == o;
      assert hits == {k};
    } else {
      assert hits == {};
    }
  }

  /** An observer removed before an update receives nothing from it. */
  lemma RemovedReceivesNothing(b: Box, o: Id, message: string)
    ensures forall n :: n in UpdateMessage(RemoveObserver(b, o).box, message).log ==> n.observer != o
  {
  }

  /** A subscriber added after a message was published is not sent that message; it first hears the next update. */
  lemma NoReplayOnSubscribe(b: Box, published: string, o: Id, next: string)
    ensures var b1 := UpdateMessage(b, published).box;
      var added := AddObserver(b1, o);
      && added.log == []
      && added.box.recentMessage == Some(published)
      && UpdateMessage(added.box, next).log == UpdateMessage(b1, next).log + [Notification(o, next)]
  {
  }

  /** Publishing the message already stored notifies everyone again: `didSet` fires on every assignment. */
  lemma RepeatedUpdateNotifiesAgain(b: Box, message: string)
    ensures var u1 := UpdateMessage(b, message);
      var u2 := UpdateMessage(u1.box, message);
      u2.box == u1.box && u2.log == u1.log && |u2.log| == |b.observers|
  {
  }
}
