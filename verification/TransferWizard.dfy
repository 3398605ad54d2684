/** The transfer modal: items are copied one after the other, an existing destination pauses the run
    with a question, and the answer may cover the rest of the session. */
module TransferWizard {
  import opened Wrappers
  import opened SyncTypes

  datatype OverwritePolicy = Ask | OverwriteAll | SkipAll

  datatype Item = Item(source: Endpoint, destination: Endpoint)

  type Content = string

  type Store = map<Endpoint, Content>

  /** One transfer task as it was issued. */
  datatype Request = Request(item: Item, policy: OverwritePolicy, isMove: bool)

  datatype StepResult = Conflict(item: Item) | Copied | Skipped | StepFailed

  // ----- One transfer step -----

  /** What may go wrong in a step: no client for the destination, an existence check that errs and so
      reads as absent, a failed copy with whatever it left at its target, a failed source delete. */
  datatype Fault = Fault(noClient: bool, checkErrs: bool, copyFails: bool, residue: Option<Content>, deleteFails: bool)

  /** The source client serves the current connection, whatever the item says. */
  function ReadFrom(current: string, item: Item): Endpoint {
    if item.source.S3? then item.source.(connectionId := current) else item.source
  }

  /** Where a step writes. A copy between two S3 endpoints is a server-side copy made by the source
      client, so it lands on the current connection. */
  function WriteTo(current: string, item: Item): Endpoint {
    if item.source.S3? && item.destination.S3? then item.destination.(connectionId := current)
    else item.destination
  }

  function Write(current: string, store: Store, request: Request, fault: Fault): (StepResult, Store) {
    var item := request.item;
    var from, to := ReadFrom(current, item), WriteTo(current, item);
    if item.source.Local? && item.destination.Local? then (StepFailed, store)
    else if from !in store || fault.copyFails then
      (StepFailed, if fault.residue.Some? then store[to := fault.residue.value] else store)
    else
      var written := store[to := store[from]];
      if request.isMove && item.source.S3? && item.destination.S3? then
        if fault.deleteFails then (StepFailed, written) else (Copied, written - {from})
      else (Copied, written)
  }

  function RunStep(current: string, store: Store, request: Request, fault: Fault): (StepResult, Store) {
    var present := request.item.destination in store && !fault.checkErrs;
    if request.item.destination.S3? && fault.noClient then (StepFailed, store)
    else if present && request.policy == Ask then (StepResult.Conflict(request.item), store)
    else if present && request.policy == SkipAll then (Skipped, store)
    else Write(current, store, request, fault)
  }

  // ----- The modal -----

  datatype Wizard = Wizard(
    isMove: bool,
    items: seq<Item>,
    nextIndex: nat,
    completed: nat,
    skipped: nat,
    failed: nat,
    pending: Option<Item>,
    policy: OverwritePolicy,
    preparing: bool,
    running: bool)

  /** A handler's new state and the task it issues, if any. */
  datatype Handled = Handled(wizard: Wizard, task: Option<Request>)

  function ProcessNext(w: Wizard): Handled {
    if w.nextIndex >= |w.items| then Handled(w.(running := false, pending := None), None)
    else Handled(w.(running := true, pending := None), Some(Request(w.items[w.nextIndex], w.policy, w.isMove)))
  }

  function ItemsPrepared(w: Wizard, items: Option<seq<Item>>): Handled {
    var ready := w.(preparing := false);
    if items.None? then Handled(ready.(running := false), None)
    else
      var reset := ready.(items := items.value, nextIndex := 0, completed := 0, skipped := 0, failed := 0,
                          running := true, pending := None);
      if items.value == [] then Handled(reset.(running := false), None) else ProcessNext(reset)
  }

  function StepFinished(w: Wizard, result: StepResult): Handled {
    match result
    case Conflict(item) => Handled(w.(pending := Some(item), running := false), None)
    case Copied => ProcessNext(w.(completed := w.completed + 1, nextIndex := w.nextIndex + 1))
    case Skipped => ProcessNext(w.(skipped := w.skipped + 1, nextIndex := w.nextIndex + 1))
    case StepFailed => ProcessNext(w.(failed := w.failed + 1, nextIndex := w.nextIndex + 1))
  }

  function Resolve(w: Wizard, skip: bool, remember: bool): Handled {
    if w.pending.None? then Handled(w, None)
    else
      var policy := if !remember then w.policy else if skip then SkipAll else OverwriteAll;
      var resolved := w.(pending := None, policy := policy);
      if skip then ProcessNext(resolved.(skipped := w.skipped + 1, nextIndex := w.nextIndex + 1))
      else Handled(resolved.(running := true), Some(Request(w.pending.value, OverwriteAll, false)))
  }

  class TransferState {
    const isMove: bool
    var items: seq<Item>
    var nextIndex: nat
    var completed: nat
    var skipped: nat
    var failed: nat
    var pendingConflict: Option<Item>
    var overwritePolicy: OverwritePolicy
    var preparing: bool
    var running: bool

    ghost function View(): Wizard
      reads this
    {
      Wizard(isMove, items, nextIndex, completed, skipped, failed, pendingConflict, overwritePolicy, preparing, running)
    }

    constructor (isMove: bool)
      ensures View() == Opened(isMove)
    {
      this.isMove := isMove;
      items, nextIndex, completed, skipped, failed := [], 0, 0, 0, 0;
      pendingConflict, overwritePolicy, preparing, running := None, Ask, false, false;
    }

    method ProcessNextStep() returns (task: Option<Request>)
      modifies this
      ensures Handled(View(), task) == ProcessNext(old(View()))
    {
      pendingConflict := None;
      if nextIndex >= |items| {
        running := false;
        return None;
      }
      running := true;
      task := Some(Request(items[nextIndex], overwritePolicy, isMove));
    }

    method HandlePrepared(result: Option<seq<Item>>) returns (task: Option<Request>)
      modifies this
      ensures Handled(View(), task) == ItemsPrepared(old(View()), result)
      ensures !preparing && (running <==> task.Some?)
    {
      preparing := false;
      match result
      case None =>
        running := false;
        return None;
      case Some(prepared) =>
        items, nextIndex, completed, skipped, failed := prepared, 0, 0, 0, 0;
        running, pendingConflict := true, None;
        if items == [] {
          running := false;
          return None;
        }
        task := ProcessNextStep();
    }

    method HandleStepFinished(result: StepResult) returns (task: Option<Request>)
      modifies this
      ensures Handled(View(), task) == StepFinished(old(View()), result)
      ensures running <==> task.Some?
      ensures pendingConflict == if result.Conflict? then Some(result.item) else None
    {
      match result {
        case Conflict(item) =>
          pendingConflict, running := Some(item), false;
          return None;
        case Copied => completed := completed + 1;
        case Skipped => skipped := skipped + 1;
        case StepFailed => failed := failed + 1;
      }
      nextIndex := nextIndex + 1;
      task := ProcessNextStep();
    }

    method ResolveConflict(skip: bool, remember: bool) returns (task: Option<Request>)
      modifies this
      ensures Handled(View(), task) == Resolve(old(View()), skip, remember)
      ensures pendingConflict == None
      ensures remember && old(pendingConflict).Some? ==> overwritePolicy == if skip then SkipAll else OverwriteAll
      ensures !remember || old(pendingConflict).None? ==> overwritePolicy == old(overwritePolicy)
    {
      if pendingConflict == None {
        return None;
      }
      var item := pendingConflict.value;
      pendingConflict := None;
      if remember {
        overwritePolicy := if skip then SkipAll else OverwriteAll;
      }
      if skip {
        skipped, nextIndex := skipped + 1, nextIndex + 1;
        task := ProcessNextStep();
      } else {
        running := true;
        task := Some(Request(item, OverwriteAll, false));
      }
    }
  }

  // ----- Sessions -----

  function Opened(isMove: bool): Wizard {
    Wizard(isMove, [], 0, 0, 0, 0, None, Ask, false, false)
  }

  /** The modal, the store it works on, the tasks in flight, the destinations of the items prepared so far,
      and what the user has agreed to: single destinations, all of them, and the sources a move has
      taken away. */
  datatype Session = Session(
    wizard: Wizard,
    store: Store,
    inFlight: seq<Request>,
    targets: set<Endpoint>,
    agreed: set<Endpoint>,
    agreedToAll: bool,
    moved: set<Endpoint>)

  datatype Event =
    | StartPressed
    | Prepared(items: Option<seq<Item>>)
    | StepReturned(index: nat, fault: Fault)
    | Answered(skip: bool, remember: bool)

  predicate Enabled(s: Session, event: Event) {
    match event
    case StartPressed => !s.wizard.preparing && !s.wizard.running
    case Prepared(_) => s.wizard.preparing
    case StepReturned(k, _) => k < |s.inFlight|
    case Answered(_, _) => true
  }

  function Destinations(items: seq<Item>): set<Endpoint> {
    set i | 0 <= i < |items| :: items[i].destination
  }

  function Issue(inFlight: seq<Request>, task: Option<Request>): seq<Request> {
    if task.Some? then inFlight + [task.value] else inFlight
  }

  function Apply(current: string, s: Session, event: Event): Session
    requires Enabled(s, event)
  {
    match event
    case StartPressed => s.(wizard := s.wizard.(preparing := true))
    case Prepared(items) =>
      var h := ItemsPrepared(s.wizard, items);
      s.(wizard := h.wizard, inFlight := Issue(s.inFlight, h.task),
         targets := s.targets + (if items.Some? then Destinations(items.value) else {}))
    case StepReturned(k, fault) =>
      var request := s.inFlight[k];
      var (result, store) := RunStep(current, s.store, request, fault);
      var h := StepFinished(s.wizard, result);
      s.(wizard := h.wizard, store := store,
         inFlight := Issue(s.inFlight[..k] + s.inFlight[k + 1..], h.task),
         moved := if request.isMove && result == Copied then s.moved + {ReadFrom(current, request.item)} else s.moved)
    case Answered(skip, remember) =>
      var h := Resolve(s.wizard, skip, remember);
      var answers := s.wizard.pending.Some? && !skip;
      s.(wizard := h.wizard, inFlight := Issue(s.inFlight, h.task),
         agreed := if answers then s.agreed + {s.wizard.pending.value.destination} else s.agreed,
         agreedToAll := s.agreedToAll || (answers && remember))
  }

  ghost predicate IsSession(current: string, s: Session, events: seq<Event>, last: Session)
    decreases |events|
  {
    if events == [] then last == s
    else Enabled(s, events[0]) && IsSession(current, Apply(current, s, events[0]), events[1..], last)
  }

  /** A list of items comes back when no step is under way. Starting over an open question is allowed, and
      so is answering it once the list is there. */
  predicate Calm(s: Session, event: Event) {
    event.Prepared? ==> s.inFlight == []
  }

  /** Items whose copy lands where the existence check looks. */
  predicate Targeted(current: string, items: seq<Item>) {
    forall i :: 0 <= i < |items| ==> WriteTo(current, items[i]) == items[i].destination
  }

  /** The items land where they are checked for, and the check does not err. */
  predicate Faithful(current: string, event: Event) {
    match event
    case Prepared(items) => items.Some? ==> Targeted(current, items.value)
    case StepReturned(_, fault) => !fault.checkErrs
    case _ => true
  }

  /** Counting and pausing: at most one task is in flight, it or the open question is for the next item,
      and a run that is neither going nor paused has dealt with every item. */
  ghost predicate CountsHold(s: Session) {
    Counted(s.wizard, s.inFlight)
  }

  ghost predicate Counted(w: Wizard, inFlight: seq<Request>) {
    && w.nextIndex == w.completed + w.skipped + w.failed <= |w.items|
    && |inFlight| <= 1
    && (w.running <==> |inFlight| == 1)
    && (w.running ==> w.pending == None && w.nextIndex < |w.items|
                      && inFlight[0].item == w.items[w.nextIndex])
    && (w.pending.Some? ==> w.nextIndex < |w.items| && w.pending.value == w.items[w.nextIndex]
                            && w.policy == Ask)
    && (!w.running && w.pending == None ==> w.nextIndex == |w.items|)
  }

  /** What the counting rests on: the policy of the modal and of the task in flight come from an answer. */
  ghost predicate PolicyHolds(s: Session) {
    && (s.wizard.policy == OverwriteAll ==> s.agreedToAll)
    && (s.wizard.running && |s.inFlight| == 1 ==>
          var r := s.inFlight[0];
          r.policy == s.wizard.policy || (r.policy == OverwriteAll && r.item.destination in s.agreed))
  }

  predicate Kept(before: Store, store: Store, place: Endpoint) {
    place in store && place in before && store[place] == before[place]
  }

  /** Every object of `before` is as it was, or its fate was agreed to: by an answer for it, by an answer
      for all while it is the destination of some prepared item, or by moving it. */
  predicate Accounted(before: Store, s: Session, place: Endpoint) {
    || Kept(before, s.store, place)
    || place in s.agreed
    || (s.agreedToAll && place in s.targets)
    || place in s.moved
  }

  ghost predicate StoreHolds(before: Store, s: Session) {
    forall place :: place in before ==> Accounted(before, s, place)
  }

  /** The items still to come land where they are checked for, and their destinations are on record. */
  ghost predicate TargetsHold(current: string, s: Session) {
    forall i :: s.wizard.nextIndex <= i < |s.wizard.items| ==> OnRecord(current, s.wizard.items[i], s.targets)
  }

  predicate OnRecord(current: string, item: Item, targets: set<Endpoint>) {
    WriteTo(current, item) == item.destination && item.destination in targets
  }

  /** A task in flight is for an item on record, and may overwrite only what the user agreed to. */
  predicate Licensed(current: string, s: Session, request: Request) {
    && OnRecord(current, request.item, s.targets)
    && (request.policy == OverwriteAll ==> s.agreedToAll || request.item.destination in s.agreed)
  }

  /** Consent, however many tasks are in flight and whatever the counters say: the policy of the modal and
      every task rest on an answer of the user, and so will every task to come. */
  ghost predicate ConsentHolds(current: string, s: Session) {
    && (s.wizard.policy == OverwriteAll ==> s.agreedToAll)
    && (forall k :: 0 <= k < |s.inFlight| ==> Licensed(current, s, s.inFlight[k]))
    && (s.wizard.pending.Some? ==> OnRecord(current, s.wizard.pending.value, s.targets))
    && TargetsHold(current, s)
  }

  lemma ApplyKeepsCounts(current: string, s: Session, event: Event)
    requires CountsHold(s) && PolicyHolds(s) && Enabled(s, event) && Calm(s, event)
    ensures CountsHold(Apply(current, s, event)) && PolicyHolds(Apply(current, s, event))
  {
    match event
    case StepReturned(_, _) =>
      StepKeepsCounts(current, s, event);
      StepKeepsPolicy(current, s, event);
    case Answered(_, _) => AnswerKeepsCounts(current, s, event);
    case _ =>
  }

  /** Exactly what keeps the accounts: every event does, except a list that comes back while a step is
      under way. */
  lemma AccountsKeptIff(current: string, s: Session, event: Event)
    requires CountsHold(s) && PolicyHolds(s) && Enabled(s, event)
    ensures CountsHold(Apply(current, s, event)) <==> Calm(s, event)
  {
    if Calm(s, event) {
      ApplyKeepsCounts(current, s, event);
    } else {
      assert |s.inFlight| == 1;
    }
  }

  lemma StepKeepsCounts(current: string, s: Session, event: Event)
    requires CountsHold(s) && PolicyHolds(s) && event.StepReturned? && Enabled(s, event)
    ensures CountsHold(Apply(current, s, event))
  {
    assert s.inFlight[..0] + s.inFlight[1..] == [];
    var request := s.inFlight[0];
    var result := RunStep(current, s.store, request, event.fault).0;
    StepAsksInAskMode(current, s.store, request, event.fault);
    FinishedKeepsCounts(s.wizard, request, result);
  }

  lemma StepAsksInAskMode(current: string, store: Store, request: Request, fault: Fault)
    ensures var result := RunStep(current, store, request, fault).0;
            result.Conflict? ==> request.policy == Ask && result == StepResult.Conflict(request.item)
  {
  }

  lemma FinishedKeepsCounts(w: Wizard, request: Request, result: StepResult)
    requires Counted(w, [request])
    requires result.Conflict? ==> result == StepResult.Conflict(request.item) && w.policy == Ask
    ensures var h := StepFinished(w, result); Counted(h.wizard, Issue([], h.task))
  {
  }

  lemma StepKeepsPolicy(current: string, s: Session, event: Event)
    requires CountsHold(s) && PolicyHolds(s) && event.StepReturned? && Enabled(s, event)
    ensures PolicyHolds(Apply(current, s, event))
  {
    assert s.inFlight[..0] + s.inFlight[1..] == [];
  }

  lemma AnswerKeepsCounts(current: string, s: Session, event: Event)
    requires CountsHold(s) && PolicyHolds(s) && event.Answered?
    ensures CountsHold(Apply(current, s, event)) && PolicyHolds(Apply(current, s, event))
  {
    assert s.wizard.pending.Some? ==> s.inFlight == [];
  }

  /** A step that is not licensed to overwrite changes nothing that is there, if it writes where it
      checks, except that a move takes its source away. */
  lemma StepKeepsObjects(current: string, store: Store, request: Request, fault: Fault, place: Endpoint)
    requires WriteTo(current, request.item) == request.item.destination && !fault.checkErrs
    requires place in store
    requires request.policy == OverwriteAll ==> place != request.item.destination
    ensures var (result, after) := RunStep(current, store, request, fault);
            Kept(store, after, place)
            || (request.isMove && result == Copied && place == ReadFrom(current, request.item))
  {
  }

  lemma ApplyKeepsStore(current: string, before: Store, s: Session, event: Event)
    requires ConsentHolds(current, s) && StoreHolds(before, s) && Enabled(s, event) && Faithful(current, event)
    ensures StoreHolds(before, Apply(current, s, event))
  {
    var next := Apply(current, s, event);
    forall place | place in before ensures Accounted(before, next, place) {
      assert Accounted(before, s, place);
      if event.StepReturned? && Kept(before, s.store, place) && place !in s.agreed
         && !(s.agreedToAll && place in s.targets)
      {
        assert Licensed(current, s, s.inFlight[event.index]);
        StepKeepsObjects(current, s.store, s.inFlight[event.index], event.fault, place);
      }
    }
  }

  /** More is agreed to and more is on record as time goes on. */
  lemma LicenseStays(current: string, s: Session, event: Event, request: Request)
    requires Licensed(current, s, request) && Enabled(s, event)
    ensures Licensed(current, Apply(current, s, event), request)
  {
  }

  /** A handler's task is for an item still to come, under the modal's policy, or is what the user chose. */
  lemma NewTaskIsLicensed(current: string, s: Session, event: Event)
    requires ConsentHolds(current, s) && Enabled(s, event) && !event.Prepared? && Faithful(current, event)
    ensures TaskOf(current, s, event).Some? ==>
              Licensed(current, Apply(current, s, event), TaskOf(current, s, event).value)
  {
    ItemsStay(current, s, event);
    var w := s.wizard;
    if w.nextIndex + 1 < |w.items| {
      assert OnRecord(current, w.items[w.nextIndex + 1], s.targets);
    }
  }

  /** The task an event other than a list issues. */
  function TaskOf(current: string, s: Session, event: Event): Option<Request>
    requires Enabled(s, event)
  {
    match event
    case StepReturned(k, fault) => StepFinished(s.wizard, RunStep(current, s.store, s.inFlight[k], fault).0).task
    case Answered(skip, remember) => Resolve(s.wizard, skip, remember).task
    case Prepared(items) => ItemsPrepared(s.wizard, items).task
    case StartPressed => None
  }

  /** What is in flight afterwards was so before, or is the new task. */
  lemma InFlightAfter(current: string, s: Session, event: Event, k: nat)
    requires Enabled(s, event) && k < |Apply(current, s, event).inFlight|
    ensures var request := Apply(current, s, event).inFlight[k];
            || (exists j :: 0 <= j < |s.inFlight| && s.inFlight[j] == request)
            || TaskOf(current, s, event) == Some(request)
  {
  }

  lemma ApplyKeepsConsent(current: string, s: Session, event: Event)
    requires ConsentHolds(current, s) && Enabled(s, event) && Faithful(current, event)
    ensures ConsentHolds(current, Apply(current, s, event))
  {
    var next := Apply(current, s, event);
    ApplyKeepsTargets(current, s, event);
    PendingOnRecord(current, s, event);
    if event.Prepared? {
      PreparedIsLicensed(current, s, event);
    } else {
      NewTaskIsLicensed(current, s, event);
    }
    forall k | 0 <= k < |next.inFlight| ensures Licensed(current, next, next.inFlight[k]) {
      InFlightAfter(current, s, event, k);
      if j :| 0 <= j < |s.inFlight| && s.inFlight[j] == next.inFlight[k] {
        LicenseStays(current, s, event, s.inFlight[j]);
      }
    }
  }

  lemma PreparedIsLicensed(current: string, s: Session, event: Event)
    requires ConsentHolds(current, s) && Enabled(s, event) && event.Prepared? && Faithful(current, event)
    ensures TaskOf(current, s, event).Some? ==>
              Licensed(current, Apply(current, s, event), TaskOf(current, s, event).value)
  {
    if event.items.Some? && event.items.value != [] {
      assert event.items.value[0].destination in Destinations(event.items.value);
    }
  }

  lemma PendingOnRecord(current: string, s: Session, event: Event)
    requires ConsentHolds(current, s) && Enabled(s, event)
    ensures var next := Apply(current, s, event);
            && (next.wizard.policy == OverwriteAll ==> next.agreedToAll)
            && (next.wizard.pending.Some? ==> OnRecord(current, next.wizard.pending.value, next.targets))
  {
    match event
    case StepReturned(k, fault) =>
      var request, result := s.inFlight[k], RunStep(current, s.store, s.inFlight[k], fault).0;
      assert Licensed(current, s, request);
      StepAsksInAskMode(current, s.store, request, fault);
      FinishedKeepsPolicy(s.wizard, result);
      assert result.Conflict? ==> StepFinished(s.wizard, result).wizard.pending == Some(request.item);
    case Prepared(items) =>
      PreparedKeepsPolicy(s.wizard, items);
      assert ItemsPrepared(s.wizard, items).wizard.pending in {None, s.wizard.pending};
    case Answered(skip, remember) =>
      assert Resolve(s.wizard, skip, remember).wizard.pending == None;
    case StartPressed =>
  }

  lemma ApplyKeepsTargets(current: string, s: Session, event: Event)
    requires TargetsHold(current, s) && Enabled(s, event) && Faithful(current, event)
    ensures TargetsHold(current, Apply(current, s, event))
  {
    if event.Prepared? && event.items.Some? {
      var items := event.items.value;
      assert Apply(current, s, event).wizard.items == items;
      forall i | 0 <= i < |items| ensures OnRecord(current, items[i], Destinations(items)) {
        assert items[i].destination in Destinations(items);
      }
    } else {
      ItemsStay(current, s, event);
    }
  }

  lemma ItemsStay(current: string, s: Session, event: Event)
    requires Enabled(s, event) && (event.Prepared? ==> event.items.None?)
    ensures var next := Apply(current, s, event);
            && next.wizard.items == s.wizard.items && next.targets == s.targets
            && s.wizard.nextIndex <= next.wizard.nextIndex
  {
    match event
    case StepReturned(k, fault) => FinishedGoesOn(s.wizard, RunStep(current, s.store, s.inFlight[k], fault).0);
    case _ =>
  }

  lemma FinishedGoesOn(w: Wizard, result: StepResult)
    ensures var h := StepFinished(w, result); h.wizard.items == w.items && w.nextIndex <= h.wizard.nextIndex
  {
  }

  ghost predicate AllCalm(current: string, s: Session, events: seq<Event>)
    decreases |events|
  {
    events != [] ==>
      Enabled(s, events[0]) && Calm(s, events[0]) && AllCalm(current, Apply(current, s, events[0]), events[1..])
  }

  predicate AllFaithful(current: string, events: seq<Event>) {
    forall i :: 0 <= i < |events| ==> Faithful(current, events[i])
  }

  lemma {:induction false} SessionKeepsCounts(current: string, s: Session, events: seq<Event>, last: Session)
    requires CountsHold(s) && PolicyHolds(s)
    requires IsSession(current, s, events, last) && AllCalm(current, s, events)
    ensures CountsHold(last) && PolicyHolds(last)
    decreases |events|
  {
    if events != [] {
      ApplyKeepsCounts(current, s, events[0]);
      SessionKeepsCounts(current, Apply(current, s, events[0]), events[1..], last);
    }
  }

  lemma {:induction false} SessionKeepsStore(current: string, before: Store, s: Session, events: seq<Event>,
                                             last: Session)
    requires ConsentHolds(current, s) && StoreHolds(before, s)
    requires IsSession(current, s, events, last) && AllFaithful(current, events)
    ensures StoreHolds(before, last)
    decreases |events|
  {
    if events != [] {
      ApplyKeepsStore(current, before, s, events[0]);
      ApplyKeepsConsent(current, s, events[0]);
      SessionKeepsStore(current, before, Apply(current, s, events[0]), events[1..], last);
    }
  }

  /** The modal has just been opened: nothing is listed, counted, asked or agreed to. */
  predicate IsNew(s: Session) {
    var w := s.wizard;
    && w.items == [] && w.nextIndex == w.completed == w.skipped == w.failed == 0
    && w.pending == None && w.policy == Ask && !w.preparing && !w.running
    && s.inFlight == [] && s.targets == {} && s.agreed == {} && !s.agreedToAll && s.moved == {}
  }

  function NewSession(isMove: bool, store: Store): (s: Session)
    ensures IsNew(s)
  {
    Session(Opened(isMove), store, [], {}, {}, false, {})
  }

  /** Nothing is going on: no run, no list on its way, no question, and every item of the last run done. */
  predicate IsIdle(w: Wizard) {
    && !w.running && !w.preparing && w.pending == None
    && w.nextIndex == w.completed + w.skipped + w.failed == |w.items|
  }

  /** An idle modal, of a new session or after some run, with the user's consent asked for afresh. */
  function Afresh(w: Wizard, store: Store): Session {
    Session(w, store, [], {}, {}, false, {})
  }

  predicate IsAfresh(s: Session) {
    && IsIdle(s.wizard) && s.inFlight == [] && s.targets == {} && s.agreed == {} && !s.agreedToAll && s.moved == {}
  }

  lemma AfreshHolds(current: string, s: Session)
    requires IsAfresh(s) && s.wizard.policy != OverwriteAll
    ensures CountsHold(s) && PolicyHolds(s) && StoreHolds(s.store, s) && ConsentHolds(current, s)
  {
  }

  /** A new session is one. */
  lemma NewIsAfresh(s: Session)
    requires IsNew(s)
    ensures IsAfresh(s) && s.wizard.policy == Ask
  {
  }

  /** Accounting: in every calm session the counters add up to the next index, an open question is for
      exactly the next item and never follows an answer for all, and when nothing is going on the
      three counts add up to the number of items. */
  lemma {:induction false} CountsAddUp(current: string, first: Session, events: seq<Event>, last: Session)
    requires IsNew(first) && IsSession(current, first, events, last) && AllCalm(current, first, events)
    ensures var w := last.wizard;
            && w.nextIndex == w.completed + w.skipped + w.failed
            && (w.pending.Some? ==>
                  w.nextIndex < |w.items| && w.pending.value == w.items[w.nextIndex] && w.policy == Ask)
            && (!w.running && w.pending == None ==> w.completed + w.skipped + w.failed == |w.items|)
  {
    NewIsAfresh(first);
    AfreshHolds(current, first);
    SessionKeepsCounts(current, first, events, last);
  }

  /** No overwrite without consent: start from an idle modal, of a new session or after any earlier run,
      whose policy is not Overwrite All. In every course of events whose copies land where they are checked
      for, calm or not, an object that was there is unchanged unless, in that course, the user chose
      Overwrite for it, or chose Overwrite All with it among the prepared destinations, or moved it away. */
  lemma {:induction false} NoOverwriteWithoutConsent(current: string, first: Session, events: seq<Event>, last: Session)
    requires IsAfresh(first) && first.wizard.policy != OverwriteAll
    requires IsSession(current, first, events, last) && AllFaithful(current, events)
    ensures forall place :: place in first.store ==>
              || Kept(first.store, last.store, place)
              || place in last.agreed
              || (last.agreedToAll && place in last.targets)
              || place in last.moved
  {
    AfreshHolds(current, first);
    SessionKeepsStore(current, first.store, first, events, last);
    forall place | place in first.store
      ensures Kept(first.store, last.store, place) || place in last.agreed
              || (last.agreedToAll && place in last.targets) || place in last.moved
    {
      assert Accounted(first.store, last, place);
    }
  }

  // ----- Answers for all -----

  /** How many of the tasks may still come back with a question. */
  function Asking(requests: seq<Request>): nat {
    if requests == [] then 0
    else Asking(requests[..|requests| - 1]) + if requests[|requests| - 1].policy == Ask then 1 else 0
  }

  lemma {:induction false} AskingWithout(requests: seq<Request>, k: nat)
    requires k < |requests|
    ensures Asking(requests[..k] + requests[k + 1..])
            == Asking(requests) - (if requests[k].policy == Ask then 1 else 0)
  {
    var front, last := requests[..|requests| - 1], requests[|requests| - 1];
    if k < |front| {
      AskingWithout(front, k);
      assert requests[..k] + requests[k + 1..] == front[..k] + front[k + 1..] + [last];
      AskingIssued(front[..k] + front[k + 1..], Some(last));
    } else {
      assert requests[..k] + requests[k + 1..] == front;
    }
  }

  lemma {:induction false} AskingIssued(requests: seq<Request>, task: Option<Request>)
    ensures Asking(Issue(requests, task))
            == Asking(requests) + (if task.Some? && task.value.policy == Ask then 1 else 0)
  {
    if task.Some? {
      assert (requests + [task.value])[..|requests|] == requests;
    }
  }

  /** Does the event bring a question? */
  predicate Questions(current: string, s: Session, event: Event)
    requires Enabled(s, event)
  {
    event.StepReturned? && RunStep(current, s.store, s.inFlight[event.index], event.fault).0.Conflict?
  }

  ghost function QuestionsIn(current: string, s: Session, events: seq<Event>): nat
    decreases |events|
  {
    if events == [] || !Enabled(s, events[0]) then 0
    else
      (if Questions(current, s, events[0]) then 1 else 0)
      + QuestionsIn(current, Apply(current, s, events[0]), events[1..])
  }

  /** Without the Ask policy no handler issues a task that may ask. */
  lemma NoAskingTask(current: string, s: Session, event: Event)
    requires s.wizard.policy != Ask && Enabled(s, event)
    ensures Apply(current, s, event).wizard.policy != Ask
    ensures TaskOf(current, s, event).Some? ==> TaskOf(current, s, event).value.policy != Ask
  {
    match event
    case StepReturned(k, fault) => FinishedKeepsPolicy(s.wizard, RunStep(current, s.store, s.inFlight[k], fault).0);
    case Prepared(items) => PreparedKeepsPolicy(s.wizard, items);
    case Answered(skip, remember) => AnsweredPolicy(s.wizard, skip, remember);
    case StartPressed =>
  }

  lemma AnsweredPolicy(w: Wizard, skip: bool, remember: bool)
    ensures var h := Resolve(w, skip, remember);
            && (w.policy != Ask ==> h.wizard.policy != Ask)
            && (w.policy != Ask && h.task.Some? ==> h.task.value.policy != Ask)
  {
  }

  lemma ApplyAsksLess(current: string, s: Session, event: Event)
    requires s.wizard.policy != Ask && Enabled(s, event)
    ensures var next := Apply(current, s, event);
            Asking(next.inFlight) + (if Questions(current, s, event) then 1 else 0) <= Asking(s.inFlight)
  {
    NoAskingTask(current, s, event);
    var task := TaskOf(current, s, event);
    if event.StepReturned? {
      AskingWithout(s.inFlight, event.index);
      AskingIssued(s.inFlight[..event.index] + s.inFlight[event.index + 1..], task);
      StepAsksInAskMode(current, s.store, s.inFlight[event.index], event.fault);
    } else {
      AskingIssued(s.inFlight, task);
    }
  }

  lemma {:induction false} QuestionsRunOut(current: string, s: Session, events: seq<Event>, last: Session)
    requires s.wizard.policy != Ask && IsSession(current, s, events, last)
    ensures last.wizard.policy != Ask
    ensures QuestionsIn(current, s, events) + Asking(last.inFlight) <= Asking(s.inFlight)
    decreases |events|
  {
    if events != [] {
      NoAskingTask(current, s, events[0]);
      ApplyAsksLess(current, s, events[0]);
      QuestionsRunOut(current, Apply(current, s, events[0]), events[1..], last);
    }
  }

  /** After an answer for all, in every course of events and in every later run of the modal, no task that is
      issued can come back with a question: the questions still to come are at most those of tasks that were
      already under way. */
  lemma {:induction false} AnswerForAllEndsQuestions(current: string, asked: Session, skip: bool, events: seq<Event>,
                                                     last: Session)
    requires asked.wizard.pending.Some?
    requires IsSession(current, Apply(current, asked, Answered(skip, true)), events, last)
    ensures forall event :: Enabled(last, event) && TaskOf(current, last, event).Some? ==>
              forall store, fault :: !RunStep(current, store, TaskOf(current, last, event).value, fault).0.Conflict?
    ensures QuestionsIn(current, Apply(current, asked, Answered(skip, true)), events) <= Asking(asked.inFlight)
  {
    var after := Apply(current, asked, Answered(skip, true));
    AskingIssued(asked.inFlight, Resolve(asked.wizard, skip, true).task);
    QuestionsRunOut(current, after, events, last);
    forall event | Enabled(last, event) ensures TaskOf(current, last, event).Some? ==>
        forall store, fault :: !RunStep(current, store, TaskOf(current, last, event).value, fault).0.Conflict?
    {
      NoAskingTask(current, last, event);
    }
  }

  /** No question is open or can come, and the policy is the one answered. */
  predicate Answers(s: Session, policy: OverwritePolicy) {
    policy != Ask && s.wizard.policy == policy && s.wizard.pending == None && Asking(s.inFlight) == 0
  }

  lemma ApplyKeepsAnswer(current: string, s: Session, event: Event, policy: OverwritePolicy)
    requires Answers(s, policy) && Enabled(s, event)
    ensures var next := Apply(current, s, event);
            && Answers(next, policy) && next.agreed == s.agreed && next.agreedToAll == s.agreedToAll
            && (TaskOf(current, s, event).Some? ==> TaskOf(current, s, event).value.policy == policy)
  {
    ApplyAsksLess(current, s, event);
    match event
    case StepReturned(k, fault) =>
      AskingWithout(s.inFlight, k);
      StepAsksInAskMode(current, s.store, s.inFlight[k], fault);
      FinishedKeepsPolicy(s.wizard, RunStep(current, s.store, s.inFlight[k], fault).0);
    case Prepared(items) => PreparedKeepsPolicy(s.wizard, items);
    case _ =>
  }

  lemma FinishedKeepsPolicy(w: Wizard, result: StepResult)
    ensures var h := StepFinished(w, result);
            && h.wizard.policy == w.policy
            && (!result.Conflict? ==> h.wizard.pending == None)
            && (h.task.Some? ==> h.task.value.policy == w.policy)
  {
  }

  lemma PreparedKeepsPolicy(w: Wizard, items: Option<seq<Item>>)
    ensures var h := ItemsPrepared(w, items);
            && h.wizard.policy == w.policy
            && (w.pending == None ==> h.wizard.pending == None)
            && (h.task.Some? ==> h.task.value.policy == w.policy)
  {
  }

  lemma {:induction false} AnswerStays(current: string, s: Session, events: seq<Event>, last: Session,
                                       policy: OverwritePolicy)
    requires Answers(s, policy) && IsSession(current, s, events, last)
    ensures Answers(last, policy) && last.agreed == s.agreed && last.agreedToAll == s.agreedToAll
    decreases |events|
  {
    if events != [] {
      ApplyKeepsAnswer(current, s, events[0], policy);
      AnswerStays(current, Apply(current, s, events[0]), events[1..], last, policy);
    }
  }

  lemma AnsweredNow(current: string, asked: Session, skip: bool)
    requires CountsHold(asked) && asked.wizard.pending.Some?
    ensures Answers(Apply(current, asked, Answered(skip, true)), if skip then SkipAll else OverwriteAll)
  {
    assert asked.inFlight == [];
    ResolvedForAll(asked.wizard, skip);
    AskingIssued([], Resolve(asked.wizard, skip, true).task);
  }

  lemma ResolvedForAll(w: Wizard, skip: bool)
    requires w.pending.Some?
    ensures var h := Resolve(w, skip, true);
            && h.wizard.pending == None && h.wizard.policy == (if skip then SkipAll else OverwriteAll)
            && (h.task.Some? ==> h.task.value.policy == h.wizard.policy)
  {
  }

  /** In calm sessions, where nothing is under way while a question is open, that is none: the answer for all
      is final. No question is open ever after, the policy stays Skip All or Overwrite All as it was
      answered, and every task that is issued goes by it. */
  lemma {:induction false} AnswerForAllIsFinal(current: string, asked: Session, skip: bool, events: seq<Event>,
                                               last: Session)
    requires CountsHold(asked) && asked.wizard.pending.Some?
    requires IsSession(current, Apply(current, asked, Answered(skip, true)), events, last)
    ensures last.wizard.pending == None && last.wizard.policy == if skip then SkipAll else OverwriteAll
    ensures QuestionsIn(current, Apply(current, asked, Answered(skip, true)), events) == 0
    ensures forall event :: Enabled(last, event) && TaskOf(current, last, event).Some? ==>
              TaskOf(current, last, event).value.policy == if skip then SkipAll else OverwriteAll
  {
    var after, policy := Apply(current, asked, Answered(skip, true)), if skip then SkipAll else OverwriteAll;
    AnsweredNow(current, asked, skip);
    QuestionsRunOut(current, after, events, last);
    AnswerStays(current, after, events, last, policy);
    forall event | Enabled(last, event) && TaskOf(current, last, event).Some?
      ensures TaskOf(current, last, event).value.policy == policy
    {
      ApplyKeepsAnswer(current, last, event, policy);
    }
  }

  /** The session with the record of consent started afresh: agreed to are only the overwrites that are already
      on their way. */
  function RecordFrom(s: Session): Session {
    s.(agreed := set k | 0 <= k < |s.inFlight| && s.inFlight[k].policy == OverwriteAll ::
                   s.inFlight[k].item.destination,
       agreedToAll := false, moved := {})
  }

  /** After Skip All, in every course of events, every object that was there is as it was, unless an overwrite
      was on its way to it, or a question of a task already under way is answered Overwrite, or it is moved. */
  lemma {:induction false} SkipAllKeeps(current: string, asked: Session, events: seq<Event>, last: Session)
    requires ConsentHolds(current, asked) && asked.wizard.pending.Some?
    requires IsSession(current, RecordFrom(Apply(current, asked, Answered(true, true))), events, last)
    requires AllFaithful(current, events)
    ensures forall place :: place in asked.store ==>
              || Kept(asked.store, last.store, place)
              || place in last.agreed
              || (last.agreedToAll && place in last.targets)
              || place in last.moved
  {
    var after := Apply(current, asked, Answered(true, true));
    ApplyKeepsConsent(current, asked, Answered(true, true));
    RecordKeepsConsent(current, after);
    SessionKeepsStore(current, asked.store, RecordFrom(after), events, last);
    forall place | place in asked.store
      ensures Kept(asked.store, last.store, place) || place in last.agreed
              || (last.agreedToAll && place in last.targets) || place in last.moved
    {
      assert Accounted(asked.store, last, place);
    }
  }

  lemma RecordKeepsConsent(current: string, s: Session)
    requires ConsentHolds(current, s) && s.wizard.policy != OverwriteAll
    ensures ConsentHolds(current, RecordFrom(s))
  {
    forall k | 0 <= k < |s.inFlight| ensures Licensed(current, RecordFrom(s), s.inFlight[k]) {
      assert Licensed(current, s, s.inFlight[k]);
    }
  }

  /** In calm sessions there is nothing under way and nobody is asked again, so after Skip All every object that
      was there stays as it is, for good, except where a move takes it away. */
  lemma {:induction false} SkipAllKeepsEverything(current: string, asked: Session, events: seq<Event>, last: Session)
    requires ConsentHolds(current, asked) && CountsHold(asked) && asked.wizard.pending.Some?
    requires IsSession(current, RecordFrom(Apply(current, asked, Answered(true, true))), events, last)
    requires AllFaithful(current, events)
    ensures forall place :: place in asked.store ==>
              Kept(asked.store, last.store, place) || place in last.moved
  {
    SkipAllKeeps(current, asked, events, last);
    CleanRecord(current, asked);
    AnswerStays(current, RecordFrom(Apply(current, asked, Answered(true, true))), events, last, SkipAll);
  }

  lemma {:induction false} CleanRecord(current: string, asked: Session)
    requires CountsHold(asked) && asked.wizard.pending.Some?
    ensures var record := RecordFrom(Apply(current, asked, Answered(true, true)));
            Answers(record, SkipAll) && record.agreed == {} && !record.agreedToAll
  {
    AnsweredNow(current, asked, true);
    ResolvedForAll(asked.wizard, true);
    assert asked.inFlight == [];
    NothingOverwrites(Apply(current, asked, Answered(true, true)), Resolve(asked.wizard, true, true).task);
  }

  lemma NothingOverwrites(s: Session, task: Option<Request>)
    requires s.inFlight == Issue([], task) && (task.Some? ==> task.value.policy != OverwriteAll)
    ensures RecordFrom(s).agreed == {}
  {
  }

  // ----- What one step does -----

  /** A step that meets no fault, item by item: it asks exactly when something is there and the policy is Ask,
      skips exactly when something is there and the policy is Skip All, and in all other cases copies what is
      at the source. What it does not copy it leaves alone, and nothing else changes. */
  lemma StepOutcome(current: string, store: Store, request: Request)
    requires WriteTo(current, request.item) == request.item.destination
    requires ReadFrom(current, request.item) in store
    requires !(request.item.source.Local? && request.item.destination.Local?)
    ensures var (result, after) := RunStep(current, store, request, NoFault);
            var from, to := ReadFrom(current, request.item), request.item.destination;
            && (result.Conflict? <==> to in store && request.policy == Ask)
            && (result == Skipped <==> to in store && request.policy == SkipAll)
            && (result == Copied <==> to !in store || request.policy == OverwriteAll)
            && (result != Copied ==> after == store)
            && (result == Copied && !request.isMove ==> after == store[to := store[from]])
            && (result == Copied && request.isMove && from.S3? && to.S3? ==> after == store[to := store[from]] - {from})
  {
  }

  /** An Overwrite answer issues one task, for the very item that was asked about, which copies it over what is
      there and keeps its source. */
  lemma OverwriteAnswerCopies(current: string, s: Session, remember: bool) returns (request: Request)
    requires s.wizard.pending.Some?
    ensures Apply(current, s, Answered(false, remember)).inFlight == s.inFlight + [request]
    ensures request.item == s.wizard.pending.value
    ensures forall store: Store ::
              WriteTo(current, request.item) == request.item.destination
              && ReadFrom(current, request.item) in store
              && !(request.item.source.Local? && request.item.destination.Local?) ==>
                RunStep(current, store, request, NoFault)
                == (Copied, store[request.item.destination := store[ReadFrom(current, request.item)]])
  {
    request := Resolve(s.wizard, false, remember).task.value;
  }

  /** A copy run in which every item can be read and lands where it is checked for. */
  ghost predicate Copyable(current: string, w: Wizard, store: Store) {
    && !w.isMove
    && forall i :: w.nextIndex <= i < |w.items| ==>
         && WriteTo(current, w.items[i]) == w.items[i].destination && ReadFrom(current, w.items[i]) in store
         && !(w.items[i].source.Local? && w.items[i].destination.Local?)
  }

  /** On its way: the next item is in flight under the policy, or every item is dealt with. */
  predicate Going(s: Session, policy: OverwritePolicy) {
    var w := s.wizard;
    && w.pending == None && w.policy == policy && w.nextIndex <= |w.items|
    && (w.running <==> w.nextIndex < |w.items|)
    && s.inFlight == if w.running then [Request(w.items[w.nextIndex], policy, w.isMove)] else []
  }

  lemma GoOneStep(current: string, s: Session, policy: OverwritePolicy)
    requires policy != Ask && Going(s, policy) && s.wizard.running && Copyable(current, s.wizard, s.store)
    ensures Enabled(s, StepReturned(0, NoFault))
    ensures var next := Apply(current, s, StepReturned(0, NoFault));
            var item := s.wizard.items[s.wizard.nextIndex];
            && Going(next, policy) && next.wizard.items == s.wizard.items && next.wizard.isMove == s.wizard.isMove
            && next.wizard.nextIndex == s.wizard.nextIndex + 1 && next.wizard.failed == s.wizard.failed
            && (if policy == SkipAll && item.destination in s.store
                then next.store == s.store && next.wizard.completed == s.wizard.completed
                else next.store == s.store[item.destination := s.store[ReadFrom(current, item)]]
                     && next.wizard.completed == s.wizard.completed + 1)
            && next.wizard.completed + next.wizard.skipped == s.wizard.completed + s.wizard.skipped + 1
  {
    StepOutcome(current, s.store, s.inFlight[0]);
    assert s.inFlight[..0] + s.inFlight[1..] == [];
  }

  /** Nothing goes, and nothing changes under Skip All. */
  predicate Grows(policy: OverwritePolicy, store: Store, after: Store) {
    forall place :: place in store ==> place in after && (policy == SkipAll ==> after[place] == store[place])
  }

  /** From `s` to `last` the items from the next one on are dealt with, `n` of them: none failed, each was copied
      or, under Skip All, skipped, and each has something at its destination. */
  ghost predicate WorkedOff(policy: OverwritePolicy, s: Session, last: Session, n: nat) {
    && last.wizard.items == s.wizard.items && last.wizard.nextIndex == s.wizard.nextIndex + n <= |s.wizard.items|
    && last.wizard.failed == s.wizard.failed
    && last.wizard.completed + last.wizard.skipped == s.wizard.completed + s.wizard.skipped + n
    && (policy == OverwriteAll ==> last.wizard.completed == s.wizard.completed + n)
    && (forall i :: s.wizard.nextIndex <= i < last.wizard.nextIndex ==> s.wizard.items[i].destination in last.store)
    && Grows(policy, s.store, last.store)
  }

  lemma OneStepOn(current: string, s: Session, policy: OverwritePolicy) returns (next: Session)
    requires policy != Ask && Going(s, policy) && s.wizard.running && Copyable(current, s.wizard, s.store)
    ensures Enabled(s, StepReturned(0, NoFault)) && next == Apply(current, s, StepReturned(0, NoFault))
    ensures Going(next, policy) && Copyable(current, next.wizard, next.store)
    ensures WorkedOff(policy, s, next, 1)
  {
    GoOneStep(current, s, policy);
    next := Apply(current, s, StepReturned(0, NoFault));
  }

  lemma WorkedOffThenMore(policy: OverwritePolicy, s: Session, next: Session, last: Session, n: nat)
    requires WorkedOff(policy, s, next, 1) && WorkedOff(policy, next, last, n)
    ensures WorkedOff(policy, s, last, n + 1)
  {
    forall i | s.wizard.nextIndex <= i < last.wizard.nextIndex ensures s.wizard.items[i].destination in last.store {
      if i == s.wizard.nextIndex {
        assert s.wizard.items[i].destination in next.store;
      }
    }
  }

  /** After an answer for all a copy run that meets no fault works every item off, one step each and without
      another question, and then every item has something at its destination. After Skip All what was there
      before is there still, so exactly the items with nothing at their destination were copied. */
  lemma {:induction false} AnsweredRunFinishes(current: string, s: Session, policy: OverwritePolicy)
    returns (events: seq<Event>, last: Session)
    requires policy != Ask && Going(s, policy) && Copyable(current, s.wizard, s.store)
    ensures IsSession(current, s, events, last)
    ensures !last.wizard.running && last.wizard.pending == None && last.wizard.nextIndex == |last.wizard.items|
    ensures WorkedOff(policy, s, last, |events|)
    decreases |s.wizard.items| - s.wizard.nextIndex
  {
    if s.wizard.running {
      var next := OneStepOn(current, s, policy);
      events, last := AnsweredRunFinishes(current, next, policy);
      WorkedOffThenMore(policy, s, next, last, |events|);
      events := First(current, s, StepReturned(0, NoFault), events, last);
    } else {
      events, last := [], s;
    }
  }

  /** So whenever a question is answered for all, the rest of the run goes through without another one: after
      Skip All the item asked about and all that have something at their destination are left alone, and the
      others are copied; after Overwrite All every item is. */
  lemma {:induction false} AnswerForAllFinishes(current: string, asked: Session, skip: bool)
    returns (events: seq<Event>, last: Session)
    requires CountsHold(asked) && asked.wizard.pending.Some? && Copyable(current, asked.wizard, asked.store)
    ensures IsSession(current, Apply(current, asked, Answered(skip, true)), events, last)
    ensures |events| == |asked.wizard.items| - asked.wizard.nextIndex - (if skip then 1 else 0)
    ensures !last.wizard.running && last.wizard.pending == None && last.wizard.nextIndex == |last.wizard.items|
    ensures last.wizard.failed == asked.wizard.failed
    ensures !skip ==> last.wizard.completed == asked.wizard.completed + |events|
    ensures forall i :: asked.wizard.nextIndex + (if skip then 1 else 0) <= i < |asked.wizard.items| ==>
              asked.wizard.items[i].destination in last.store
    ensures skip ==> forall place :: place in asked.store ==> Kept(asked.store, last.store, place)
  {
    var after := Apply(current, asked, Answered(skip, true));
    assert asked.inFlight == [];
    events, last := AnsweredRunFinishes(current, after, if skip then SkipAll else OverwriteAll);
  }

  // ----- What is counted, and what is tried -----

  /** What has happened since the last list came back. */
  datatype Tally = Tally(copied: nat, skipped: nat, failed: nat)

  /** The tally after one more event: each step that came back counts as what it came back with, and each
      skipped question as skipped. */
  function Tallied(current: string, s: Session, tally: Tally, event: Event): Tally
    requires Enabled(s, event)
  {
    match event
    case StartPressed => tally
    case Prepared(items) => if items.Some? then Tally(0, 0, 0) else tally
    case Answered(skip, _) =>
      if skip && s.wizard.pending.Some? then tally.(skipped := tally.skipped + 1) else tally
    case StepReturned(k, fault) =>
      match RunStep(current, s.store, s.inFlight[k], fault).0
      case Conflict(_) => tally
      case Copied => tally.(copied := tally.copied + 1)
      case Skipped => tally.(skipped := tally.skipped + 1)
      case StepFailed => tally.(failed := tally.failed + 1)
  }

  ghost function TallyOf(current: string, s: Session, tally: Tally, events: seq<Event>): Tally
    decreases |events|
  {
    if events == [] || !Enabled(s, events[0]) then tally
    else TallyOf(current, Apply(current, s, events[0]), Tallied(current, s, tally, events[0]), events[1..])
  }

  /** In every session the three counters are exactly what they are called: the steps that copied, those that
      skipped with the questions answered Skip, and those that failed, since the last list. */
  lemma {:induction false} CountersTell(current: string, s: Session, tally: Tally, events: seq<Event>, last: Session)
    requires IsSession(current, s, events, last)
    requires tally == Tally(s.wizard.completed, s.wizard.skipped, s.wizard.failed)
    ensures TallyOf(current, s, tally, events) == Tally(last.wizard.completed, last.wizard.skipped, last.wizard.failed)
    decreases |events|
  {
    if events != [] {
      TalliesOne(current, s, tally, events[0]);
      CountersTell(current, Apply(current, s, events[0]), Tallied(current, s, tally, events[0]), events[1..], last);
    }
  }

  lemma TalliesOne(current: string, s: Session, tally: Tally, event: Event)
    requires Enabled(s, event) && tally == Tally(s.wizard.completed, s.wizard.skipped, s.wizard.failed)
    ensures var w := Apply(current, s, event).wizard;
            Tallied(current, s, tally, event) == Tally(w.completed, w.skipped, w.failed)
  {
    match event
    case StepReturned(k, fault) => TalliesStep(s.wizard, RunStep(current, s.store, s.inFlight[k], fault).0);
    case _ =>
  }

  lemma TalliesStep(w: Wizard, result: StepResult)
    ensures var next := StepFinished(w, result).wizard;
            && next.completed == w.completed + (if result == Copied then 1 else 0)
            && next.skipped == w.skipped + (if result == Skipped then 1 else 0)
            && next.failed == w.failed + (if result == StepFailed then 1 else 0)
  {
  }

  /** The first tries since the last list came back: every task issued but those an Overwrite answer issues
      again. */
  function Tried(current: string, s: Session, tries: seq<Request>, event: Event): seq<Request>
    requires Enabled(s, event)
  {
    var before := if event.Prepared? && event.items.Some? then [] else tries;
    if event.Answered? && !event.skip then before else Issue(before, TaskOf(current, s, event))
  }

  ghost function TriesIn(current: string, s: Session, tries: seq<Request>, events: seq<Event>): seq<Request>
    decreases |events|
  {
    if events == [] || !Enabled(s, events[0]) then tries
    else TriesIn(current, Apply(current, s, events[0]), Tried(current, s, tries, events[0]), events[1..])
  }

  /** The tries are for the items up to the next index, in order, as moves if the modal moves. */
  predicate TriesHold(w: Wizard, tries: seq<Request>) {
    && |tries| == (if w.nextIndex < |w.items| then w.nextIndex + 1 else |w.items|)
    && forall i :: 0 <= i < |tries| ==> tries[i].item == w.items[i] && tries[i].isMove == w.isMove
  }

  lemma FinishedKeepsTries(w: Wizard, tries: seq<Request>, result: StepResult)
    requires TriesHold(w, tries)
    ensures var h := StepFinished(w, result); TriesHold(h.wizard, Issue(tries, h.task))
  {
  }

  lemma AnswerKeepsTries(w: Wizard, tries: seq<Request>, skip: bool, remember: bool)
    requires TriesHold(w, tries)
    ensures var h := Resolve(w, skip, remember); TriesHold(h.wizard, if skip then Issue(tries, h.task) else tries)
  {
  }

  lemma PreparedKeepsTries(w: Wizard, tries: seq<Request>, items: Option<seq<Item>>)
    requires TriesHold(w, tries)
    ensures var h := ItemsPrepared(w, items); TriesHold(h.wizard, Issue(if items.Some? then [] else tries, h.task))
  {
  }

  lemma ApplyKeepsTries(current: string, s: Session, tries: seq<Request>, event: Event)
    requires TriesHold(s.wizard, tries) && Enabled(s, event)
    ensures TriesHold(Apply(current, s, event).wizard, Tried(current, s, tries, event))
  {
    match event
    case StepReturned(k, fault) =>
      FinishedKeepsTries(s.wizard, tries, RunStep(current, s.store, s.inFlight[k], fault).0);
    case Answered(skip, remember) => AnswerKeepsTries(s.wizard, tries, skip, remember);
    case Prepared(items) => PreparedKeepsTries(s.wizard, tries, items);
    case StartPressed =>
  }

  lemma {:induction false} SessionKeepsTries(current: string, s: Session, tries: seq<Request>, events: seq<Event>,
                                             last: Session)
    requires TriesHold(s.wizard, tries) && IsSession(current, s, events, last)
    ensures TriesHold(last.wizard, TriesIn(current, s, tries, events))
    decreases |events|
  {
    if events != [] {
      ApplyKeepsTries(current, s, tries, events[0]);
      SessionKeepsTries(current, Apply(current, s, events[0]), Tried(current, s, tries, events[0]), events[1..], last);
    }
  }

  /** In every session every item is tried once and in order: the first tries since the last list came back are
      for the items from the first to the next one, no more and no fewer, as moves exactly if the modal moves. */
  lemma {:induction false} EachItemTriedOnce(current: string, first: Session, events: seq<Event>, last: Session)
    requires IsNew(first) && IsSession(current, first, events, last)
    ensures var tries, w := TriesIn(current, first, [], events), last.wizard;
            && |tries| == (if w.nextIndex < |w.items| then w.nextIndex + 1 else |w.items|)
            && forall i :: 0 <= i < |tries| ==> tries[i].item == w.items[i] && tries[i].isMove == w.isMove
  {
    SessionKeepsTries(current, first, [], events, last);
  }

  predicate NoAnswers(events: seq<Event>) {
    forall i :: 0 <= i < |events| ==> !events[i].Answered?
  }

  lemma {:induction false} NoAnswerNoConsent(current: string, s: Session, events: seq<Event>, last: Session)
    requires IsSession(current, s, events, last) && NoAnswers(events)
    ensures last.agreed == s.agreed && last.agreedToAll == s.agreedToAll
    decreases |events|
  {
    if events != [] {
      NoAnswerNoConsent(current, Apply(current, s, events[0]), events[1..], last);
    }
  }

  /** Nothing there is overwritten while the user answers nothing. */
  ghost predicate AsksFirst(current: string, w: Wizard) {
    forall store, events, last ::
      IsSession(current, Afresh(w, store), events, last) && AllFaithful(current, events)
      && NoAnswers(events) ==>
        forall place :: place in store ==> Kept(store, last.store, place) || place in last.moved
  }

  /** An idle modal asks before it overwrites if and only if its policy is not Overwrite All, which an
      answer given in an earlier run leaves behind. */
  lemma AsksFirstIff(current: string, w: Wizard)
    requires IsIdle(w)
    ensures AsksFirst(current, w) <==> w.policy != OverwriteAll
  {
    if w.policy != OverwriteAll {
      forall store, events, last |
        IsSession(current, Afresh(w, store), events, last) && AllFaithful(current, events)
        && NoAnswers(events)
        ensures forall place :: place in store ==> Kept(store, last.store, place) || place in last.moved
      {
        UnansweredKeeps(current, Afresh(w, store), events, last);
      }
    } else {
      var store, events, last := OverwritesUnasked(current, w);
    }
  }

  lemma {:induction false} UnansweredKeeps(current: string, first: Session, events: seq<Event>, last: Session)
    requires IsAfresh(first) && first.wizard.policy != OverwriteAll && NoAnswers(events)
    requires IsSession(current, first, events, last) && AllFaithful(current, events)
    ensures forall place :: place in first.store ==> Kept(first.store, last.store, place) || place in last.moved
  {
    NoOverwriteWithoutConsent(current, first, events, last);
    NoAnswerNoConsent(current, first, events, last);
  }

  lemma OverwritesUnasked(current: string, w: Wizard) returns (store: Store, events: seq<Event>, last: Session)
    requires IsIdle(w) && w.policy == OverwriteAll
    ensures IsSession(current, Afresh(w, store), events, last) && AllFaithful(current, events)
    ensures NoAnswers(events)
    ensures exists place :: place in store && !Kept(store, last.store, place) && place !in last.moved
  {
    var a, b := S3(current, "bucket", "a"), S3(current, "bucket", "b");
    store := map[a := "new", b := "old"];
    var idle := Afresh(w, store);
    var started := Apply(current, idle, StartPressed);
    var copy := Item(a, b);
    var tried := Apply(current, started, Prepared(Some([copy])));
    assert tried.inFlight == [Request(copy, OverwriteAll, w.isMove)];
    last := Apply(current, tried, StepReturned(0, NoFault));
    assert last.inFlight == [];
    events := First(current, tried, StepReturned(0, NoFault), [], last);
    events := First(current, started, Prepared(Some([copy])), events, last);
    events := First(current, idle, StartPressed, events, last);
    assert b in store && !Kept(store, last.store, b) && b !in last.moved;
  }

  // ----- Answers while a list is on its way -----

  /** The user leaves an open question alone while another list is being prepared. */
  predicate Prompt(s: Session, event: Event) {
    event.Answered? && s.wizard.pending.Some? ==> !s.wizard.preparing
  }

  ghost predicate AllPrompt(current: string, s: Session, events: seq<Event>)
    decreases |events|
  {
    events != [] ==>
      && Enabled(s, events[0]) && Prompt(s, events[0])
      && AllPrompt(current, Apply(current, s, events[0]), events[1..])
  }

  /** Such sessions are calm, so everything said of calm sessions holds of them. */
  lemma {:induction false} PromptIsCalm(current: string, s: Session, events: seq<Event>)
    requires CountsHold(s) && PolicyHolds(s) && (s.wizard.preparing ==> s.inFlight == [])
    requires AllPrompt(current, s, events)
    ensures AllCalm(current, s, events)
    decreases |events|
  {
    if events != [] {
      ApplyKeepsCounts(current, s, events[0]);
      PromptKeepsApart(current, s, events[0]);
      PromptIsCalm(current, Apply(current, s, events[0]), events[1..]);
    }
  }

  lemma PromptKeepsApart(current: string, s: Session, event: Event)
    requires CountsHold(s) && PolicyHolds(s) && (s.wizard.preparing ==> s.inFlight == [])
    requires Enabled(s, event) && Prompt(s, event)
    ensures var next := Apply(current, s, event); next.wizard.preparing ==> next.inFlight == []
  {
  }

  /** An answer given while another list is on its way, with that list then coming back with items in it,
      puts two tasks in flight at once; the one harmless answer is to skip the last item. */
  lemma TwoInFlightIff(current: string, s: Session, skip: bool, remember: bool, items: seq<Item>)
    requires CountsHold(s) && s.wizard.pending.Some? && s.wizard.preparing && items != []
    ensures var answered := Apply(current, s, Answered(skip, remember));
            |Apply(current, answered, Prepared(Some(items))).inFlight| == 2
            <==> !(skip && s.wizard.nextIndex + 1 == |s.wizard.items|)
  {
    assert s.inFlight == [];
  }

  // ----- How long a run takes -----

  /** The events that move a run on: a step comes back, or an open question is answered. */
  predicate Advances(s: Session, event: Event) {
    event.StepReturned? || (event.Answered? && s.wizard.pending.Some?)
  }

  /** How often that happens. */
  ghost function Turns(current: string, s: Session, events: seq<Event>): nat
    decreases |events|
  {
    if events == [] || !Enabled(s, events[0]) then 0
    else (if Advances(s, events[0]) then 1 else 0) + Turns(current, Apply(current, s, events[0]), events[1..])
  }

  predicate NoLists(events: seq<Event>) {
    forall i :: 0 <= i < |events| ==> !events[i].Prepared?
  }

  /** A task that may still come back with a question weighs three, one that overwrites weighs one. */
  function Weight(request: Request): nat {
    if request.policy == OverwriteAll then 1 else 3
  }

  function Weights(requests: seq<Request>): nat {
    if requests == [] then 0 else Weights(requests[..|requests| - 1]) + Weight(requests[|requests| - 1])
  }

  lemma {:induction false} WeightsSnoc(requests: seq<Request>, request: Request)
    ensures Weights(requests + [request]) == Weights(requests) + Weight(request)
  {
    assert (requests + [request])[..|requests|] == requests;
  }

  lemma {:induction false} WeightsWithout(requests: seq<Request>, k: nat)
    requires k < |requests|
    ensures Weights(requests[..k] + requests[k + 1..]) == Weights(requests) - Weight(requests[k])
  {
    var front, last := requests[..|requests| - 1], requests[|requests| - 1];
    if k < |front| {
      WeightsWithout(front, k);
      assert requests[..k] + requests[k + 1..] == front[..k] + front[k + 1..] + [last];
      WeightsSnoc(front[..k] + front[k + 1..], last);
    } else {
      assert requests[..k] + requests[k + 1..] == front;
    }
  }

  /** The work a session has before it until the next list: four for each item not yet issued, what is in
      flight, and two for an open question. */
  function Work(w: Wizard, inFlight: seq<Request>): nat {
    WorkToIssue(w) + Weights(inFlight)
  }

  function WorkToIssue(w: Wizard): nat {
    (if w.nextIndex < |w.items| then 4 * (|w.items| - w.nextIndex) else 0) + (if w.pending.Some? then 2 else 0)
  }

  function TaskWeight(task: Option<Request>): nat {
    if task.Some? then Weight(task.value) else 0
  }

  lemma {:induction false} WeightsIssued(inFlight: seq<Request>, task: Option<Request>)
    ensures Weights(Issue(inFlight, task)) == Weights(inFlight) + TaskWeight(task)
  {
    if task.Some? {
      WeightsSnoc(inFlight, task.value);
    }
  }

  /** A step that comes back leaves less work than it weighed, with the task it leads to. */
  lemma FinishedLowersWork(w: Wizard, request: Request, result: StepResult)
    requires result.Conflict? ==> request.policy == Ask
    ensures var h := StepFinished(w, result);
            WorkToIssue(h.wizard) + TaskWeight(h.task) + 1 <= WorkToIssue(w) + Weight(request)
  {
  }

  /** So does an answer to an open question. */
  lemma AnswerLowersWork(w: Wizard, skip: bool, remember: bool)
    ensures var h := Resolve(w, skip, remember);
            WorkToIssue(h.wizard) + TaskWeight(h.task) + (if w.pending.Some? then 1 else 0) <= WorkToIssue(w)
  {
  }

  lemma ApplyLowersWork(current: string, s: Session, event: Event)
    requires Enabled(s, event) && !event.Prepared?
    ensures var next := Apply(current, s, event);
            Work(next.wizard, next.inFlight) + (if Advances(s, event) then 1 else 0) <= Work(s.wizard, s.inFlight)
  {
    match event
    case StepReturned(k, fault) =>
      var result := RunStep(current, s.store, s.inFlight[k], fault).0;
      StepAsksInAskMode(current, s.store, s.inFlight[k], fault);
      FinishedLowersWork(s.wizard, s.inFlight[k], result);
      WeightsWithout(s.inFlight, k);
      WeightsIssued(s.inFlight[..k] + s.inFlight[k + 1..], StepFinished(s.wizard, result).task);
    case Answered(skip, remember) =>
      AnswerLowersWork(s.wizard, skip, remember);
      WeightsIssued(s.inFlight, Resolve(s.wizard, skip, remember).task);
    case _ =>
  }

  /** Every run of the modal ends, calm or not: until the next list comes back, steps come back and
      questions are answered no more often than there is work. */
  lemma {:induction false} RunsEnd(current: string, s: Session, events: seq<Event>, last: Session)
    requires IsSession(current, s, events, last) && NoLists(events)
    ensures Turns(current, s, events) + Work(last.wizard, last.inFlight) <= Work(s.wizard, s.inFlight)
    decreases |events|
  {
    if events != [] {
      ApplyLowersWork(current, s, events[0]);
      RunsEnd(current, Apply(current, s, events[0]), events[1..], last);
    }
  }

  /** Steps a calm run still has in it: three for an item not yet tried, two while its question is open, one
      once an overwrite is on its way. */
  ghost function Left(s: Session): nat
    requires CountsHold(s)
  {
    LeftOf(s.wizard, s.inFlight)
  }

  ghost function LeftOf(w: Wizard, inFlight: seq<Request>): nat
    requires Counted(w, inFlight)
  {
    3 * (|w.items| - w.nextIndex)
    - (if w.pending.Some? then 1 else if w.running && inFlight[0].policy == OverwriteAll then 2 else 0)
  }

  lemma ApplyLowersLeft(current: string, s: Session, event: Event)
    requires CountsHold(s) && PolicyHolds(s) && Enabled(s, event) && Calm(s, event) && !event.Prepared?
    ensures CountsHold(Apply(current, s, event))
    ensures Left(Apply(current, s, event)) <= Left(s) - (if Advances(s, event) then 1 else 0)
  {
    ApplyKeepsCounts(current, s, event);
    if event.StepReturned? {
      var request := s.inFlight[0];
      assert s.inFlight == [request] && s.inFlight[..0] + s.inFlight[1..] == [];
      StepAsksInAskMode(current, s.store, request, event.fault);
      FinishedLowersLeft(s.wizard, request, RunStep(current, s.store, request, event.fault).0);
    }
  }

  lemma FinishedLowersLeft(w: Wizard, request: Request, result: StepResult)
    requires Counted(w, [request]) && (result.Conflict? ==> request.policy == Ask)
    requires var h := StepFinished(w, result); Counted(h.wizard, Issue([], h.task))
    ensures var h := StepFinished(w, result); LeftOf(h.wizard, Issue([], h.task)) < LeftOf(w, [request])
  {
  }

  /** A calm run asks about an item at most once: until the next list it takes at most three steps and
      answers for each item it still has. */
  lemma {:induction false} CalmRunsAreShort(current: string, s: Session, events: seq<Event>)
    requires CountsHold(s) && PolicyHolds(s) && AllCalm(current, s, events) && NoLists(events)
    ensures Turns(current, s, events) <= Left(s) <= 3 * |s.wizard.items|
    decreases |events|
  {
    if events != [] {
      ApplyKeepsCounts(current, s, events[0]);
      ApplyLowersLeft(current, s, events[0]);
      CalmRunsAreShort(current, Apply(current, s, events[0]), events[1..]);
    }
  }

  // ----- Where consent fails -----

  const NoFault := Fault(false, false, false, None, false)

  /** Which copies in Ask mode leave every object of every store as it is. Those that write nothing: between
      two local places, or without a client for the destination. Those that are checked for where they
      write. Of the others, onto another place only those that fail and leave nothing behind; onto their
      own source also those that succeed. */
  predicate IsSafe(current: string, item: Item, fault: Fault) {
    || (item.source.Local? && item.destination.Local?)
    || (item.destination.S3? && fault.noClient)
    || (WriteTo(current, item) == item.destination && !fault.checkErrs)
    || (if ReadFrom(current, item) == WriteTo(current, item) then !fault.copyFails || fault.residue.None?
        else fault.copyFails && fault.residue.None?)
  }

  lemma AskIsSafeIff(current: string, item: Item, fault: Fault)
    ensures (forall store: Store ::
               var (result, after) := RunStep(current, store, Request(item, Ask, false), fault);
               forall place :: place in store ==> Kept(store, after, place))
            <==> IsSafe(current, item, fault)
  {
    if !IsSafe(current, item, fault) {
      var store := UnsafeStore(current, item, fault);
    } else {
      forall store: Store, place | place in store
        ensures Kept(store, RunStep(current, store, Request(item, Ask, false), fault).1, place)
      {
        SafeKeeps(current, item, fault, store, place);
      }
    }
  }

  lemma SafeKeeps(current: string, item: Item, fault: Fault, store: Store, place: Endpoint)
    requires IsSafe(current, item, fault) && place in store
    ensures Kept(store, RunStep(current, store, Request(item, Ask, false), fault).1, place)
  {
  }

  /** A store in which an unsafe copy overwrites: something to read, and something else in its way. */
  lemma UnsafeStore(current: string, item: Item, fault: Fault) returns (store: Store)
    requires !IsSafe(current, item, fault)
    ensures var after := RunStep(current, store, Request(item, Ask, false), fault).1;
            exists place :: place in store && !Kept(store, after, place)
  {
    var from, to := ReadFrom(current, item), WriteTo(current, item);
    var there := if fault.residue.Some? then fault.residue.value + "x" else "old";
    store := map[to := there];
    if from != to {
      store := store[from := there + "x"];
    }
    assert to in store && !Kept(store, RunStep(current, store, Request(item, Ask, false), fault).1, to);
  }

  /** An existence check that errs reads as absent, and then even Ask overwrites. */
  lemma ErringCheckOverwrites(current: string, store: Store, item: Item)
    requires WriteTo(current, item) == item.destination && item.destination in store
    requires ReadFrom(current, item) in store && !(item.source.Local? && item.destination.Local?)
    ensures var (result, after) := RunStep(current, store, Request(item, Ask, false), NoFault.(checkErrs := true));
            result == Copied && item.destination in after
            && after[item.destination] == store[ReadFrom(current, item)]
  {
  }

  /** For instance, a copy to a bucket of another connection is reported as done while nothing has come to that
      connection: the object is in the bucket of that name on the current one. */
  lemma OtherConnectionStaysEmpty(current: string, other: string, fromBucket: string, fromKey: string, bucket: string,
                                  key: string, listed: string, store: Store, policy: OverwritePolicy)
    requires other != current && S3(current, fromBucket, fromKey) in store && S3(other, bucket, key) !in store
    ensures var item := Item(S3(listed, fromBucket, fromKey), S3(other, bucket, key));
            var (result, after) := RunStep(current, store, Request(item, policy, false), NoFault);
            && result == Copied && S3(other, bucket, key) !in after
            && S3(current, bucket, key) in after
            && after[S3(current, bucket, key)] == store[S3(current, fromBucket, fromKey)]
  {
  }

  /** A move that reports success keeps the object exactly when it did not land on its own source, which
      it does when the same bucket and key are chosen on another connection. */
  lemma MovedObjectSurvivesIff(current: string, store: Store, item: Item, policy: OverwritePolicy)
    requires item.source.S3? && item.destination.S3? && ReadFrom(current, item) in store
    requires RunStep(current, store, Request(item, policy, true), NoFault).0 == Copied
    ensures var after := RunStep(current, store, Request(item, policy, true), NoFault).1;
            && (WriteTo(current, item) in after && after[WriteTo(current, item)] == store[ReadFrom(current, item)]
                <==> WriteTo(current, item) != ReadFrom(current, item))
            && ReadFrom(current, item) !in after
  {
  }

  /** A copy that reports success takes its source away exactly when it was issued as a move between S3
      endpoints, and the task that follows an Overwrite answer never is, not even in a move. */
  lemma SourceRemovedIff(current: string, store: Store, request: Request, fault: Fault)
    requires RunStep(current, store, request, fault).0 == Copied
    ensures ReadFrom(current, request.item) !in RunStep(current, store, request, fault).1
            <==> request.isMove && request.item.source.S3? && request.item.destination.S3?
    ensures forall w: Wizard, remember: bool ::
              Resolve(w, false, remember).task == Some(request) ==>
                ReadFrom(current, request.item) in RunStep(current, store, request, fault).1
  {
  }

  /** An answer for all outlives the run it was given in: a second run in the same modal overwrites
      without a question and without a new answer. */
  lemma SecondRunDoesNotAsk(current: string, a: Endpoint, b: Endpoint, c: Endpoint)
    returns (first: Session, events: seq<Event>, last: Session)
    requires a.S3? && b.S3? && c.S3? && a.connectionId == b.connectionId == c.connectionId == current
    requires a != b && b != c && a != c
    ensures first.wizard.nextIndex == |first.wizard.items| == 1 && !first.wizard.running && first.inFlight == []
    ensures c in first.store && c !in first.agreed
    ensures IsSession(current, first, events, last) && forall e :: e in events ==> !e.Answered?
    ensures c in last.store && last.store[c] != first.store[c]
  {
    var store: Store := map[a := "new", b := "old", c := "old"];
    var empty := NewSession(false, store);
    var toB, toC := Item(a, b), Item(a, c);
    var asking := AskedAbout(current, empty, toB);
    var answered := Apply(current, asking, Answered(false, true));
    assert answered.inFlight == [Request(toB, OverwriteAll, false)];
    first := Apply(current, answered, StepReturned(0, NoFault));
    assert first.inFlight == [] && first.store == store[b := "new"];
    var t1 := Apply(current, first, StartPressed);
    var t2 := Apply(current, t1, Prepared(Some([toC])));
    assert t2.inFlight == [Request(toC, OverwriteAll, false)];
    last := Apply(current, t2, StepReturned(0, NoFault));
    assert last.store == first.store[c := "new"];
    events := First(current, t2, StepReturned(0, NoFault), [], last);
    events := First(current, t1, Prepared(Some([toC])), events, last);
    events := First(current, first, StartPressed, events, last);
  }

  /** Starting again over an open question and then answering it puts two tasks in flight, and a run of
      one item reports two copies. */
  lemma RestartOverQuestionMiscounts(current: string, a: Endpoint, b: Endpoint, c: Endpoint)
    returns (events: seq<Event>, last: Session)
    requires a.S3? && b.S3? && c.S3? && a.connectionId == b.connectionId == c.connectionId == current
    requires a != b && b != c && a != c
    ensures exists store :: IsSession(current, NewSession(false, store), events, last)
    ensures |last.wizard.items| == 1 && last.wizard.completed == 2 && last.inFlight == []
  {
    var store: Store := map[a := "new", b := "old"];
    var empty := NewSession(false, store);
    var toB, toC := Item(a, b), Item(a, c);
    var asking := AskedAbout(current, empty, toB);
    events, last := BothTasks(current, asking, toB, toC);
    var started := Apply(current, empty, StartPressed);
    var tried := Apply(current, started, Prepared(Some([toB])));
    events := First(current, tried, StepReturned(0, NoFault), events, last);
    events := First(current, started, Prepared(Some([toB])), events, last);
    events := First(current, empty, StartPressed, events, last);
  }

  /** Restarted over its question and then answered, the modal has two tasks in flight and counts both. */
  lemma BothTasks(current: string, asking: Session, toB: Item, toC: Item) returns (events: seq<Event>, last: Session)
    requires asking == NewSession(false, asking.store).(
                         wizard := Opened(false).(items := [toB], pending := Some(toB)), targets := asking.targets)
    requires toB.source == toC.source && toB.source.S3? && toB.destination.S3? && toC.destination.S3?
    requires ReadFrom(current, toB) in asking.store && toC.destination !in asking.store
    requires WriteTo(current, toB) != toC.destination
    ensures IsSession(current, asking, events, last)
    ensures |last.wizard.items| == 1 && last.wizard.completed == 2 && last.inFlight == []
  {
    var again := Apply(current, asking, StartPressed);
    var answered := Apply(current, again, Answered(false, false));
    assert answered.inFlight == [Request(toB, OverwriteAll, false)];
    var two := Apply(current, answered, Prepared(Some([toC])));
    assert two.inFlight == [Request(toB, OverwriteAll, false), Request(toC, Ask, false)];
    events, last := BothReturn(current, two, toB, toC);
    events := First(current, answered, Prepared(Some([toC])), events, last);
    events := First(current, again, Answered(false, false), events, last);
    events := First(current, asking, StartPressed, events, last);
  }

  lemma BothReturn(current: string, two: Session, toB: Item, toC: Item) returns (events: seq<Event>, last: Session)
    requires two.wizard == Opened(false).(items := [toC], running := true)
    requires two.inFlight == [Request(toB, OverwriteAll, false), Request(toC, Ask, false)]
    requires toB.source == toC.source && toB.source.S3? && toB.destination.S3? && toC.destination.S3?
    requires ReadFrom(current, toB) in two.store && toC.destination !in two.store
    requires WriteTo(current, toB) != toC.destination
    ensures IsSession(current, two, events, last)
    ensures |last.wizard.items| == 1 && last.wizard.completed == 2 && last.inFlight == []
  {
    var one := Apply(current, two, StepReturned(0, NoFault));
    assert one.inFlight == [Request(toC, Ask, false)] && one.wizard.completed == 1;
    last := Apply(current, one, StepReturned(0, NoFault));
    assert last.inFlight == [] && last.wizard.completed == 2;
    events := First(current, one, StepReturned(0, NoFault), [], last);
    events := First(current, two, StepReturned(0, NoFault), events, last);
  }

  /** A first run of one item whose destination exists stops to ask. */
  lemma AskedAbout(current: string, s: Session, item: Item) returns (asking: Session)
    requires s == NewSession(false, s.store) && item.destination in s.store
    ensures asking == s.(wizard := s.wizard.(items := [item], pending := Some(item)), targets := {item.destination})
    ensures Enabled(s, StartPressed) && Enabled(Apply(current, s, StartPressed), Prepared(Some([item])))
    ensures var tried := Apply(current, Apply(current, s, StartPressed), Prepared(Some([item])));
            Enabled(tried, StepReturned(0, NoFault)) && asking == Apply(current, tried, StepReturned(0, NoFault))
  {
    var tried := Apply(current, Apply(current, s, StartPressed), Prepared(Some([item])));
    assert tried.inFlight == [Request(item, Ask, false)];
    assert Destinations([item]) == {item.destination};
    asking := Apply(current, tried, StepReturned(0, NoFault));
    assert asking.inFlight == [];
  }

  lemma First(current: string, s: Session, event: Event, rest: seq<Event>, last: Session) returns (events: seq<Event>)
    requires Enabled(s, event) && IsSession(current, Apply(current, s, event), rest, last)
    ensures events == [event] + rest && IsSession(current, s, events, last)
  {
    events := [event] + rest;
    assert events[1..] == rest;
  }
}
