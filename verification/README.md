# Observer registry of ObserverPatternPractice, in Dafny

ObserverPatternPractice is a small iOS demo of the observer pattern. A
`MessageBox` (the publisher) keeps an ordered list of observers and the most
recent message; whenever the message is assigned, its `didSet` hook calls
`observe(message:)` on every observer in list order. The observers are
`CustomLabel`s: each has an immutable UUID `identifier` and renders an
observed message as the prefix `"구독자: "` followed by the message. The
`RootViewController` ties them together: editing the text field publishes
its text, the add button pushes a new label (placeholder text `"구독자: ?"`)
onto a stack and registers it, and the remove button pops the last label and
unregisters it.

This project models that core as immutable data and pure transition
functions:

- `options.dfy` — `Options.Option`, Swift's `T?` with `??`.
- `observer.dfy` — `Observer.Id` (an opaque identifier with equality,
  standing for `UUID`), `Observer.Notification` (one `observe(message:)`
  call) and the `Distinct` predicate.
- `custom_label.dfy` — `CustomLabel.Label` (identifier plus `String?` text)
  and `Observe`.
- `message_box.dfy` — `MessageBox.Box` (observer ids plus
  `recentMessage`). The operations return an `Update`: the new box and the
  log of `observe` calls it issued, in order. `Assign` is the `didSet`
  hook.
- `root_view_controller.dfy` — `RootViewController.Screen` (label stack
  plus box), the three action methods, and the invariant `Consistent`. The
  invariant says the registry lists exactly the stacked labels' ids, in
  order, each once. A run of user actions (`Step`, `Run`) keeps it.

The registry follows the code literally. `addObserver` appends even an id
that is already registered, so duplicate ids coexist and each copy is
notified (`DuplicateNotifiedTwice`). `removeObserver` drops every entry with
a matching id. `observe` never touches the registry, and nothing in the core
throws.

## Model

| member | source | states |
|---|---|---|
| CustomLabel.Init | ObserverPatternPractice/CustomLabel.swift:13-15 | a label is created with the given identifier and no text |
| CustomLabel.Observe | ObserverPatternPractice/CustomLabel.swift:27-29 | observing keeps the identifier; the text becomes the prefix followed by exactly the message, so as a sequence of Unicode scalars it always starts with the prefix |
| CustomLabel.MessageOf | ObserverPatternPractice/CustomLabel.swift:28 | a text is a rendered message exactly when it starts with the prefix, and then it is the prefix plus the message read back |
| CustomLabel.ObserveRoundTrip | ObserverPatternPractice/CustomLabel.swift:28 | the observed message can be read back from the label's text |
| CustomLabel.ObserveInjective | ObserverPatternPractice/CustomLabel.swift:28 | two messages give the same label iff they are equal |
| CustomLabel.ObserveIdempotent | ObserverPatternPractice/CustomLabel.swift:27-29 | observing a message twice equals observing it once |
| CustomLabel.ObserveLastWriteWins | ObserverPatternPractice/CustomLabel.swift:28 | observing a then b leaves the same label as observing b alone |
| MessageBox.Without | ObserverPatternPractice/MessageBox.swift:30 | the filtered list has no entry equal to the id and keeps every other entry with its multiplicity |
| MessageBox.WithoutConcat | ObserverPatternPractice/MessageBox.swift:30 | filtering distributes over concatenation, so survivors keep their relative order |
| MessageBox.WithoutAbsent | ObserverPatternPractice/MessageBox.swift:30 | filtering leaves the list unchanged iff the id is absent |
| MessageBox.FanOut | ObserverPatternPractice/MessageBox.swift:17-19 | the notifications go to exactly the observer list, in order, each with the given message |
| MessageBox.AddObserver | ObserverPatternPractice/MessageBox.swift:24-26 | the list grows by one, the prior order is kept, the new id is last even if already present; no notification, message unchanged |
| MessageBox.RemoveObserver | ObserverPatternPractice/MessageBox.swift:29-31 | no entry with the id remains, all other entries are kept with their multiplicities, an absent id changes nothing; no notification |
| MessageBox.Assign | ObserverPatternPractice/MessageBox.swift:15-21 | assigning stores the value and notifies every current observer in order with it, or with "" when it is nil; the list is unchanged |
| MessageBox.UpdateMessage | ObserverPatternPractice/MessageBox.swift:34-36 | the message is stored and the i-th notification goes to the i-th observer with exactly that message; the list is unchanged |
| MessageBox.RemoveObserverIdempotent | ObserverPatternPractice/MessageBox.swift:29-31 | removing an id twice equals removing it once |
| MessageBox.AddThenRemove | ObserverPatternPractice/MessageBox.swift:24-31 | adding then removing an id restores the box iff the id was not registered |
| MessageBox.DuplicateNotifiedTwice | ObserverPatternPractice/MessageBox.swift:15-26 | re-adding a registered id makes the next update notify it once per registry entry, so at least twice |
| MessageBox.UpdateNotifiesEachOnce | ObserverPatternPractice/MessageBox.swift:15-21 | without duplicates, an update notifies each registered observer exactly once and nobody else |
| MessageBox.RemovedReceivesNothing | ObserverPatternPractice/MessageBox.swift:15-31 | an observer removed before an update gets no notification from it |
| MessageBox.NoReplayOnSubscribe | ObserverPatternPractice/MessageBox.swift:24-26 | subscribing after a publish sends nothing; the subscriber is notified last on the next update |
| MessageBox.RepeatedUpdateNotifiesAgain | ObserverPatternPractice/MessageBox.swift:15-21 | publishing the stored message again notifies every observer again and changes nothing else |
| RootViewController.Notify | ObserverPatternPractice/MessageBox.swift:17-19 | one `observe(message:)` call reaching the stack: every label carrying the addressed id observes the message, every other label is unchanged, the stack keeps its length |
| RootViewController.Deliver | ObserverPatternPractice/MessageBox.swift:17-19 | delivering a log of calls one after the other never changes which ids the stack holds, nor their order |
| RootViewController.DeliverFanOut | ObserverPatternPractice/MessageBox.swift:17-19 | after a fan-out reaches the labels, each label with a registered id shows the prefix plus the message, other labels are untouched |
| RootViewController.TextFieldMessageDidChange | ObserverPatternPractice/RootViewController.swift:120-124 | nil text changes nothing; otherwise the box stores the text, keeps its observers, and every registered label shows the prefix plus the text |
| RootViewController.AddLabel | ObserverPatternPractice/RootViewController.swift:126-132 | with a fresh id, a placeholder label is appended below the unchanged stack and its id is registered last; the message is kept |
| RootViewController.RemoveLabel | ObserverPatternPractice/RootViewController.swift:134-140 | an empty stack changes nothing; otherwise exactly the last label is popped and the registry becomes the old one with that label's id filtered out: every other entry stays with its multiplicity, and the message is kept |
| RootViewController.InitialConsistent | ObserverPatternPractice/RootViewController.swift:63-69 | the loaded screen (`RootViewController.Initial`: no labels and `MessageBox.Initial`, a box with no observers and no message) satisfies the invariant |
| RootViewController.AddLabelConsistent | ObserverPatternPractice/RootViewController.swift:126-132 | adding a label with a fresh id preserves the invariant |
| RootViewController.RemoveLabelConsistent | ObserverPatternPractice/RootViewController.swift:134-140 | removing a label preserves the invariant and unregisters exactly the last registry entry |
| RootViewController.TextFieldMessageDidChangeConsistent | ObserverPatternPractice/RootViewController.swift:120-124 | a text change preserves the invariant |
| RootViewController.EveryLabelShowsMessage | ObserverPatternPractice/RootViewController.swift:120-124 | on a consistent screen, after the text changes to m every label shows the prefix plus m |
| RootViewController.NewLabelKeepsPlaceholder | ObserverPatternPractice/RootViewController.swift:126-132 | a label added after a publish shows the placeholder and first shows a message on the next update |
| RootViewController.PlaceholderReadsAsQuestionMark | ObserverPatternPractice/RootViewController.swift:15 | the label `addLabel` pushes equals a fresh label that observed "?", and its text reads back as the message "?" |
| RootViewController.AddThenRemoveLabel | ObserverPatternPractice/RootViewController.swift:126-140 | removing the label just added restores the screen exactly |
| RootViewController.Step | ObserverPatternPractice/RootViewController.swift:120-140 | text changes and removals always apply; an add is excluded exactly when its id is already on the stack |
| RootViewController.RunConsistent | ObserverPatternPractice/RootViewController.swift:120-140 | every screen reached from a consistent one by user actions is consistent |

## Left out

- Layout, Auto Layout constraints, the view hierarchy, scroll view, stack view and button setup, and `viewDidLoad` (RootViewController.swift:30-115): UIKit glue with no logic to state.
- The convenience initialisers in Extensions/ConvenienceInitializers.swift: thin wrappers over UIKit.
- The protocols in Protocols/Observer.swift and Protocols/Publisher.swift: they declare signatures only; `Observer.Id`, `Observer.Notification` and the `MessageBox` functions mirror them.
- UUID generation: the id is a parameter of `AddLabel`, and freshness is its precondition. A colliding id makes `Step` return nil.
- `deinit`'s `print` and the `fatalError` in `init(coder:)`: I/O and a trap.
- Button titles, colours, fonts and the text-field placeholder: presentation only.
- Observer identity: the registry stores label objects and filters them by `identifier`. The model stores only the identifiers and delivers each notification to the stacked labels with that identifier. These agree whenever identifiers are unique, which `AddLabel`'s precondition ensures.
- Strings are modelled as sequences of Unicode scalars (Swift's `unicodeScalars` view), not as Swift `Character`s. Lengths and the prefix test in `CustomLabel.Observe` and `CustomLabel.MessageOf` count scalars. A message that begins with a combining mark (for example U+0301) merges with the prefix's final space into one Swift `Character`, so Swift's `count` and `hasPrefix` differ from the model's, although the rendered scalars are the same.
- Re-entrant registry changes during the fan-out, and errors thrown from callbacks: `observe` never touches the registry and nothing throws.
