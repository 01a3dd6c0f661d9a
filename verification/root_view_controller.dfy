/**
  The action methods of `RootViewController`: a stack of labels on screen
  kept in step with the `MessageBox` registry. Text-field edits publish the
  text, the add button pushes a new subscriber label, the remove button pops
  the last one.
 */
module RootViewController {
  import opened Options
  import opened Observer
  import opened CustomLabel
  import opened MessageBox

  /** The labels stacked on screen, top to bottom, and the message box they subscribe to. */
  datatype Screen = Screen(labels: seq<Label>, messageBox: Box)

  /** `Constants.initialObserverLabelText`: the placeholder a new label shows ("subscriber: ?"). */
  const InitialObserverLabelText: string := "구독자: ?"

  /** The screen after loading: no labels, an empty message box. */
  const Initial: Screen := Screen([], MessageBox.Initial)

  /** The identifiers of the labels, in stack order. */
  function LabelIds(labels: seq<Label>): (ids: seq<Id>)
    ensures |ids| == |labels|
    ensures forall i :: 0 <= i < |labels| ==> ids[i] == labels[i].identifier
  {
    if labels == [] then [] else [labels[0].identifier] + LabelIds(labels[1..])
  }

  /** The registry lists exactly the labels on the stack, in the same order, each once. */
  predicate Consistent(s: Screen)
  {
    LabelIds(s.labels) == s.messageBox.observers && Distinct(s.messageBox.observers)
  }

  /** One `observe(message:)` call reaching the labels: the label(s) carrying the addressed identifier observe the message, the rest are untouched. */
  function Notify(labels: seq<Label>, n: Notification): (r: seq<Label>)
    ensures |r| == |labels|
    ensures forall i :: 0 <= i < |labels| ==>
      r[i] == (if labels[i].identifier == n.observer then Observe(labels[i], n.message) else labels[i])
  {
    if labels == [] then []
    else
      [if labels[0].identifier == n.observer then Observe(labels[0], n.message) else labels[0]]
      + Notify(labels[1..], n)
  }

  /** The labels after a whole log of notifications has been delivered, one call after the other. */
  function Deliver(labels: seq<Label>, log: seq<Notification>): (r: seq<Label>)
    ensures LabelIds(r) == LabelIds(labels)
    decreases |log|
  {
    if log == [] then labels else Deliver(Notify(labels, log[0]), log[1..])
  }

  /** Delivering a fan-out of `message` makes every label whose identifier is registered show the message, and leaves the others alone. */
  lemma {:induction false} DeliverFanOut(labels: seq<Label>, observers: seq<Id>, message: string)
    ensures var r := Deliver(labels, FanOut(observers, message));
      && |r| == |labels|
      && forall i :: 0 <= i < |labels| ==>
           && r[i].identifier == labels[i].identifier
           && r[i].text == (if labels[i].identifier in observers then Some(Prefix + message) else labels[i].text)
    decreases |observers|
  {
    if observers != [] {
      var log := FanOut(observers, message);
      assert log[0] == Notification(observers[0], message);
      assert log[1..] == FanOut(observers[1..], message);
      var mid := Notify(labels, log[0]);
      DeliverFanOut(mid, observers[1..], message);
      assert observers == [observers[0]] + observers[1..];
    }
  }

  /** `textFieldMessageDidChange`: a non-nil field text is published and rendered by every subscribed label; a nil text does nothing. */
  function TextFieldMessageDidChange(s: Screen, fieldText: Option<string>): (r: Screen)
    ensures fieldText.None? ==> r == s
    ensures fieldText.Some? ==> r.messageBox == Box(s.messageBox.observers, fieldText)
    ensures LabelIds(r.labels) == LabelIds(s.labels)
    ensures fieldText.Some? ==> forall i :: 0 <= i < |s.labels| ==>
      r.labels[i].text == (if s.labels[i].identifier in s.messageBox.observers
                           then Some(Prefix + fieldText.value) else s.labels[i].text)
  {
    match fieldText
    case None => s
    case Some(message) =>
      var u := UpdateMessage(s.messageBox, message);
      DeliverFanOut(s.labels, s.messageBox.observers, message);
      Screen(Deliver(s.labels, u.log), u.box)
  }

  /** `addLabel`: a new label with a fresh identifier and the placeholder text goes to the bottom of the stack and is registered as an observer. */
  function AddLabel(s: Screen, uuid: Id): (r: Screen)
    requires uuid !in LabelIds(s.labels)
    ensures |r.labels| == |s.labels| + 1
    ensures r.labels[..|s.labels|] == s.labels
    ensures r.labels[|s.labels|] == Label(uuid, Some(InitialObserverLabelText))
    ensures r.messageBox.observers == s.messageBox.observers + [uuid]
    ensures r.messageBox.recentMessage == s.messageBox.recentMessage
  {
    var added := Init(uuid).(text := Some(InitialObserverLabelText));
    Screen(s.labels + [added], AddObserver(s.messageBox, uuid).box)
  }

  /** `removeLabel`: pops the last label and unregisters its identifier; on an empty stack nothing happens. */
  function RemoveLabel(s: Screen): (r: Screen)
    ensures s.labels == [] ==> r == s
    ensures s.labels != [] ==>
      && r.labels + [s.labels[|s.labels| - 1]] == s.labels
      && r.messageBox == RemoveObserver(s.messageBox, s.labels[|s.labels| - 1].identifier).box
      && s.labels[|s.labels| - 1].identifier !in r.messageBox.observers
      && multiset(r.messageBox.observers)
         == multiset(s.messageBox.observers)[s.labels[|s.labels| - 1].identifier := 0]
      && r.messageBox.recentMessage == s.messageBox.recentMessage
  {
    if s.labels == [] then s
    else
      var last := s.labels[|s.labels| - 1];
      Screen(s.labels[..|s.labels| - 1], RemoveObserver(s.messageBox, last.identifier).box)
  }

  /** The loaded screen satisfies the invariant. */
  lemma InitialConsistent()
    ensures Consistent(Initial)
  {
  }

  /** Adding a label with a fresh identifier keeps the stack and the registry in step. */
  lemma AddLabelConsistent(s: Screen, uuid: Id)
    requires Consistent(s) && uuid !in LabelIds(s.labels)
    ensures Consistent(AddLabel(s, uuid))
  {
  }

  /** Removing the last label keeps the stack and the registry in step, and unregisters exactly the last entry. */
  lemma RemoveLabelConsistent(s: Screen)
    requires Consistent(s)
    ensures Consistent(RemoveLabel(s))
    ensures s.labels != [] ==>
      RemoveLabel(s).messageBox.observers == s.messageBox.observers[..|s.messageBox.observers| - 1]
  {
    if s.labels != [] {
      var n := |s.labels|;
      var last := s.labels[n - 1];
      var obs := s.messageBox.observers;
      var init := obs[..n - 1];
      assert obs == init + [last.identifier];
      assert last.identifier !in init;
      WithoutConcat(init, [last.identifier], last.identifier);
      assert Without([last.identifier], last.identifier) == [];
      WithoutAbsent(init, last.identifier);
      assert LabelIds(s.labels[..n - 1]) == init;
    }
  }

  /** Publishing field text keeps the stack and the registry in step. */
  lemma TextFieldMessageDidChangeConsistent(s: Screen, fieldText: Option<string>)
    requires Consistent(s)
    ensures Consistent(TextFieldMessageDidChange(s, fieldText))
  {
  }

  /** After the field text changes to `message`, every label on a consistent screen shows the prefix followed by `message`. */
  lemma EveryLabelShowsMessage(s: Screen, message: string)
    requires Consistent(s)
    ensures var r := TextFieldMessageDidChange(s, Some(message));
      forall i :: 0 <= i < |r.labels| ==> r.labels[i].text == Some(Prefix + message)
  {
  }

  /** A new label shows the placeholder even when a message was already published, until the next update reaches it. */
  lemma NewLabelKeepsPlaceholder(s: Screen, published: string, uuid: Id, next: string)
    requires Consistent(s) && uuid !in LabelIds(s.labels)
    ensures var s1 := TextFieldMessageDidChange(s, Some(published));
      var s2 := AddLabel(s1, uuid);
      && s2.messageBox.recentMessage == Some(published)
      && s2.labels[|s2.labels| - 1].text == Some(InitialObserverLabelText)
      && var s3 := TextFieldMessageDidChange(s2, Some(next));
         s3.labels[|s3.labels| - 1].text == Some(Prefix + next)
  {
  }

  /** The label `addLabel` pushes looks exactly like a fresh label that observed the message "?", and its text reads back as "?". */
  lemma PlaceholderReadsAsQuestionMark(s: Screen, uuid: Id)
    requires uuid !in LabelIds(s.labels)
    ensures var r := AddLabel(s, uuid);
      && r.labels[|s.labels|] == Observe(Init(uuid), "?")
      && MessageOf(r.labels[|s.labels|].text.value) == Some("?")
  {
    assert InitialObserverLabelText == Prefix + "?";
  }

  /** Removing the label just added restores the screen exactly. */
  lemma AddThenRemoveLabel(s: Screen, uuid: Id)
    requires Consistent(s) && uuid !in LabelIds(s.labels)
    ensures RemoveLabel(AddLabel(s, uuid)) == s
  {
    var a := AddLabel(s, uuid);
    assert a.labels[..|a.labels| - 1] == s.labels;
    AddThenRemove(s.messageBox, uuid);
  }

  /** A user action: the field text changed, the add button was tapped (with the UUID it generates), or the remove button was tapped. */
  datatype Action = MessageChanged(fieldText: Option<string>) | AddTapped(uuid: Id) | RemoveTapped

  /** One action, or nil when an add would reuse an identifier already on the stack (a UUID collision, which the model excludes). */
  function Step(s: Screen, a: Action): (r: Option<Screen>)
    ensures a.AddTapped? ==> (r.None? <==> a.uuid in LabelIds(s.labels))
    ensures !a.AddTapped? ==> r.Some?
  {
    match a
    case MessageChanged(t) => Some(TextFieldMessageDidChange(s, t))
    case AddTapped(uuid) => if uuid in LabelIds(s.labels) then None else Some(AddLabel(s, uuid))
    case RemoveTapped => Some(RemoveLabel(s))
  }

  /** A run of actions from `s`, nil as soon as one step is excluded. */
  function Run(s: Screen, actions: seq<Action>): Option<Screen>
    decreases |actions|
  {
    if actions == [] then Some(s)
    else match Step(s, actions[0])
      case None => None
      case Some(s') => Run(s', actions[1..])
  }

  /** Every screen reachable by user actions keeps the label stack and the registry in step. */
  lemma {:induction false} RunConsistent(s: Screen, actions: seq<Action>)
    requires Consistent(s)
    ensures Run(s, actions).Some? ==> Consistent(Run(s, actions).value)
    decreases |actions|
  {
    if actions != [] {
      match actions[0]
      case MessageChanged(t) =>
        TextFieldMessageDidChangeConsistent(s, t);
        RunConsistent(TextFieldMessageDidChange(s, t), actions[1..]);
      case AddTapped(uuid) =>
        if uuid !in LabelIds(s.labels) {
          AddLabelConsistent(s, uuid);
          RunConsistent(AddLabel(s, uuid), actions[1..]);
        }
      case RemoveTapped =>
        RemoveLabelConsistent(s);
        RunConsistent(RemoveLabel(s), actions[1..]);
    }
  }
}
