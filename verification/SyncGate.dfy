/** The gate in front of destructive runs: planning, guardrails and the delete confirmation. Listings and
    planning run beside the form, and their results come back as messages. */
module SyncGate {
  import opened Wrappers
  import opened SyncTypes
  import opened PathOrder
  import opened SyncPlanner
  import opened SyncLowering
  import opened SyncFilters

  const DELETE_CONFIRM_COUNT_THRESHOLD := 1000
  const DELETE_CONFIRM_BYTES_THRESHOLD := 10 * 1024 * 1024 * 1024

  /** An optional limit as typed in the form: left empty, not a positive number, or a number. */
  datatype Limit = NoLimit | BadText | AtMost(n: nat)

  datatype Confirm = Confirm(plannedDeletes: nat, plannedBytes: nat, typedRequired: bool, text: string)

  /** An execution that has been started, with the run plan it works through. */
  datatype Started = Started(mode: SyncMode, runPlan: RunPlan)

  /** The filters of both listings: the patterns, and the size and age limits as they are typed. */
  datatype Filters = Filters(patterns: PatternFilter, sizesAndAges: string)

  /** The settings a plan depends on. */
  datatype Setup = Setup(
    mode: SyncMode,
    from: Side,
    to: Side,
    filters: Filters,
    policy: SyncPolicy,
    compare: CompareMode)

  datatype Form = Form(
    setup: Setup,
    maxDeleteCount: Limit,
    maxDeleteBytes: Limit,
    planning: bool,
    sourceSnapshot: Option<seq<SyncObject>>,
    plan: Option<SyncPlan>,
    runPlan: Option<RunPlan>,
    execution: Option<Started>,
    confirm: Option<Confirm>,
    sourceScanned: nat,
    destinationScanned: nat,
    error: bool)

  // ----- The checks -----

  predicate Within(limit: Limit, n: nat) {
    match limit
    case NoLimit => true
    case BadText => false
    case AtMost(most) => most > 0 && n <= most
  }

  predicate WithinGuardrails(form: Form, run: RunPlan) {
    Within(form.maxDeleteCount, |run.deletes|) && Within(form.maxDeleteBytes, run.totalDeleteBytes)
  }

  datatype Reason = TooMany | TooLarge | TooMuchOfDestination | EmptySource

  function DeleteConfirmReason(deletes: nat, bytes: nat, destinationScanned: nat, sourceScanned: nat): Option<Reason> {
    if deletes > DELETE_CONFIRM_COUNT_THRESHOLD then Some(TooMany)
    else if bytes > DELETE_CONFIRM_BYTES_THRESHOLD then Some(TooLarge)
    else if destinationScanned > 0 && deletes * 4 > destinationScanned then Some(TooMuchOfDestination)
    else if sourceScanned == 0 && deletes > 0 then Some(EmptySource)
    else None
  }

  predicate NeedsTyping(form: Form, run: RunPlan) {
    DeleteConfirmReason(|run.deletes|, run.totalDeleteBytes, form.destinationScanned, form.sourceScanned).Some?
  }

  /** Decimal digits without leading zeros. */
  function Decimal(n: nat): (s: string)
    ensures s != "" && (|s| == 1 <==> n < 10)
  {
    var digit := ('0' as int + n % 10) as char;
    if n < 10 then [digit] else Decimal(n / 10) + [digit]
  }

  lemma {:induction false} DecimalInjective(m: nat, n: nat)
    requires Decimal(m) == Decimal(n)
    ensures m == n
  {
    var s := Decimal(m);
    assert s[|s| - 1] == ('0' as int + m % 10) as char == ('0' as int + n % 10) as char;
    assert m % 10 == n % 10;
    if m >= 10 {
      assert Decimal(m / 10) == s[..|s| - 1] == Decimal(n / 10);
      DecimalInjective(m / 10, n / 10);
    }
  }

  /** The number a row of digits stands for. */
  function ValueOf(digits: string): int {
    if digits == "" then 0
    else 10 * ValueOf(digits[..|digits| - 1]) + (digits[|digits| - 1] as int - '0' as int)
  }

  /** `s` writes the number: digits only, no leading zero, and with that value. */
  ghost predicate IsNumeral(s: string, n: nat) {
    && s != "" && (forall i :: 0 <= i < |s| ==> '0' <= s[i] <= '9')
    && (|s| > 1 ==> s[0] != '0')
    && ValueOf(s) == n
  }

  /** A number has one numeral, and it is the one written. */
  lemma {:induction false} DecimalIff(s: string, n: nat)
    ensures s == Decimal(n) <==> IsNumeral(s, n)
  {
    DecimalIsNumeral(n);
    if IsNumeral(s, n) {
      NumeralIsDecimal(s, n);
    }
  }

  lemma {:induction false} DecimalIsNumeral(n: nat)
    ensures IsNumeral(Decimal(n), n)
    ensures n > 0 ==> Decimal(n)[0] != '0'
  {
    var digit := ('0' as int + n % 10) as char;
    if n < 10 {
      assert [digit][..0] == "";
    } else {
      DecimalIsNumeral(n / 10);
      OneMoreDigit(Decimal(n / 10), n / 10, digit);
    }
  }

  lemma {:induction false} OneMoreDigit(s: string, n: nat, digit: char)
    requires IsNumeral(s, n) && n > 0 && s[0] != '0' && '0' <= digit <= '9'
    ensures IsNumeral(s + [digit], 10 * n + (digit as int - '0' as int)) && (s + [digit])[0] != '0'
  {
    assert (s + [digit])[..|s|] == s;
  }

  lemma {:induction false} NumeralIsDecimal(s: string, n: nat)
    requires IsNumeral(s, n)
    ensures s == Decimal(n)
    decreases |s|
  {
    var front, last := s[..|s| - 1], s[|s| - 1];
    assert s == front + [last];
    if front == "" {
      assert n == last as int - '0' as int;
    } else {
      ValueIsPositive(front);
      assert n / 10 == ValueOf(front) && n % 10 == last as int - '0' as int;
      NumeralIsDecimal(front, n / 10);
    }
  }

  lemma {:induction false} ValueIsPositive(digits: string)
    requires digits != "" && forall i :: 0 <= i < |digits| ==> '0' <= digits[i] <= '9'
    ensures ValueOf(digits) >= 0 && (digits[0] != '0' ==> ValueOf(digits) > 0)
  {
    if |digits| > 1 {
      ValueIsPositive(digits[..|digits| - 1]);
    } else {
      assert digits[..0] == "";
    }
  }

  predicate IsSpace(c: char) {
    c in {' ', '\t', '\n', '\U{000B}', '\U{000C}', '\r'}
  }

  function TrimLeft(s: string): string {
    if s != "" && IsSpace(s[0]) then TrimLeft(s[1..]) else s
  }

  function TrimRight(s: string): string {
    if s != "" && IsSpace(s[|s| - 1]) then TrimRight(s[..|s| - 1]) else s
  }

  /** Does the text, trimmed, read `delete` and the number? */
  predicate Confirms(text: string, deletes: nat) {
    TrimRight(TrimLeft(text)) == "delete " + Decimal(deletes)
  }

  predicate AllSpace(s: string) {
    forall i :: 0 <= i < |s| ==> s[i] in {' ', '\t', '\n', '\U{000B}', '\U{000C}', '\r'}
  }

  ghost predicate ReadsDelete(text: string, front: string, numeral: string, back: string, n: nat) {
    && text == front + "delete " + numeral + back
    && AllSpace(front) && AllSpace(back) && IsNumeral(numeral, n)
  }

  lemma {:induction false} TrimLeftIs(front: string, rest: string)
    requires AllSpace(front) && (rest == "" || !IsSpace(rest[0]))
    ensures TrimLeft(front + rest) == rest
  {
    if front == "" {
      assert front + rest == rest;
    } else {
      assert (front + rest)[1..] == front[1..] + rest;
      TrimLeftIs(front[1..], rest);
    }
  }

  lemma {:induction false} TrimRightIs(rest: string, back: string)
    requires AllSpace(back) && (rest == "" || !IsSpace(rest[|rest| - 1]))
    ensures TrimRight(rest + back) == rest
  {
    if back == "" {
      assert rest + back == rest;
    } else {
      assert (rest + back)[..|rest + back| - 1] == rest + back[..|back| - 1];
      TrimRightIs(rest, back[..|back| - 1]);
    }
  }

  lemma {:induction false} TrimLeftTakes(s: string) returns (front: string)
    ensures AllSpace(front) && s == front + TrimLeft(s)
  {
    if s != "" && IsSpace(s[0]) {
      front := TrimLeftTakes(s[1..]);
      front := [s[0]] + front;
      assert s == [s[0]] + s[1..];
    } else {
      front := "";
    }
  }

  lemma {:induction false} TrimRightTakes(s: string) returns (back: string)
    ensures AllSpace(back) && s == TrimRight(s) + back
  {
    if s != "" && IsSpace(s[|s| - 1]) {
      back := TrimRightTakes(s[..|s| - 1]);
      back := back + [s[|s| - 1]];
      assert s == s[..|s| - 1] + [s[|s| - 1]];
    } else {
      back := "";
    }
  }

  /** What has to be typed: `delete`, one space and the number in digits, with spaces around it or none. */
  lemma {:induction false} ConfirmsIff(text: string, n: nat)
    ensures Confirms(text, n) <==> exists front, numeral, back :: ReadsDelete(text, front, numeral, back, n)
  {
    if Confirms(text, n) {
      var front := TrimLeftTakes(text);
      var back := TrimRightTakes(TrimLeft(text));
      DecimalIsNumeral(n);
      assert ReadsDelete(text, front, Decimal(n), back, n);
    }
    if front, numeral, back :| ReadsDelete(text, front, numeral, back, n) {
      ReadsIsTrimmed(text, front, numeral, back, n);
    }
  }

  lemma {:induction false} ReadsIsTrimmed(text: string, front: string, numeral: string, back: string, n: nat)
    requires ReadsDelete(text, front, numeral, back, n)
    ensures Confirms(text, n)
  {
    NumeralIsDecimal(numeral, n);
    var rest := "delete " + numeral;
    assert rest[0] == 'd' && rest[|rest| - 1] == numeral[|numeral| - 1];
    assert text == front + (rest + back);
    TrimLeftIs(front, rest + back);
    TrimRightIs(rest, back);
  }

  /** One text confirms one number only. */
  lemma ConfirmsOneNumber(text: string, m: nat, n: nat)
    requires Confirms(text, m) && Confirms(text, n)
    ensures m == n
  {
    var trimmed := TrimRight(TrimLeft(text));
    assert Decimal(m) == trimmed[7..] == Decimal(n);
    DecimalInjective(m, n);
  }

  /** Typing what is asked for confirms it. */
  lemma {:induction false} ConfirmsItself(n: nat)
    ensures Confirms("delete " + Decimal(n), n)
  {
    var text := "delete " + Decimal(n);
    assert text[0] == 'd' && TrimLeft(text) == text;
    DecimalEndsInDigit(n);
    assert text[|text| - 1] == Decimal(n)[|Decimal(n)| - 1];
  }

  lemma {:induction false} DecimalEndsInDigit(n: nat)
    ensures !IsSpace(Decimal(n)[|Decimal(n)| - 1])
  {
  }

  // ----- The handlers -----

  /** Work that runs beside the form, with what it was given when it was started: a listing has its side
      and the filters, the planner has the listings and what it decides by. */
  datatype Job =
    | ListSource(from: Side, filters: Filters)
    | ListDestination(to: Side, filters: Filters)
    | Build(source: seq<SyncObject>, destination: seq<SyncObject>, mode: SyncMode, policy: SyncPolicy,
            compare: CompareMode)

  function SourceJob(setup: Setup): Job {
    ListSource(setup.from, setup.filters)
  }

  function DestinationJob(setup: Setup): Job {
    ListDestination(setup.to, setup.filters)
  }

  function PlanJob(setup: Setup, source: seq<SyncObject>, destination: seq<SyncObject>): Job {
    Build(source, destination, setup.mode, setup.policy, setup.compare)
  }

  function PlanOfJob(job: Job): SyncPlan
    requires job.Build?
  {
    PlanOf(job.source, job.destination, job.mode, job.policy, job.compare)
  }

  datatype Message =
    | OpenSync(initial: Setup)
    | StartPlan(accepted: bool)
    | SourceEnumerated(objects: Option<seq<SyncObject>>, accepted: bool)
    | DestinationEnumerated(objects: Option<seq<SyncObject>>, plannerLimit: Option<nat>)
    | PlanBuilt(built: Option<SyncPlan>)
    | EditSettings(edit: Edit)
    | StartSync
    | StartCopy
    | CancelConfirm
    | ConfirmTextChanged(text: string)
    | ConfirmRun

  datatype Edit = Edit(setup: Setup, maxDeleteCount: Limit, maxDeleteBytes: Limit)

  function NewForm(initial: Setup): Form {
    Form(initial.(mode := Diff), NoLimit, NoLimit, false, None, None, None, None, None, 0, 0, false)
  }

  function ClearPlan(form: Form): Form {
    form.(sourceSnapshot := None, plan := None, runPlan := None, execution := None, confirm := None, error := false)
  }

  function StopPlanning(form: Form): Form {
    form.(planning := false, error := true)
  }

  function Snapshot(form: Form): seq<SyncObject> {
    if form.sourceSnapshot.Some? then form.sourceSnapshot.value else []
  }

  function FitsPlanner(form: Form, objects: seq<SyncObject>, plannerLimit: Option<nat>): bool {
    plannerLimit.Some? && |Snapshot(form)| + |objects| <= plannerLimit.value
  }

  function RunPlanFor(setup: Setup, plan: SyncPlan): Option<RunPlan> {
    var lowered := RunPlanOf(setup.from, setup.to, plan.items);
    if setup.mode == Diff || lowered.Err? then None else Some(lowered.value)
  }

  function Handle(form: Form, message: Message): Form {
    match message
    case OpenSync(initial) => NewForm(initial)
    case StartPlan(accepted) =>
      ClearPlan(form).(planning := accepted, sourceScanned := 0, destinationScanned := 0, error := !accepted)
    case SourceEnumerated(objects, accepted) =>
      if objects.None? then StopPlanning(form)
      else
        var listed := form.(sourceScanned := |objects.value|, sourceSnapshot := objects);
        if accepted then listed else StopPlanning(listed)
    case DestinationEnumerated(objects, plannerLimit) =>
      if objects.None? then StopPlanning(form)
      else
        var listed := form.(destinationScanned := |objects.value|);
        if FitsPlanner(form, objects.value, plannerLimit) then listed else StopPlanning(listed)
    case PlanBuilt(built) =>
      if built.None? then StopPlanning(form)
      else
        var run := RunPlanFor(form.setup, built.value);
        form.(planning := false, plan := built, runPlan := run,
              error := form.error || (form.setup.mode != Diff && run.None?))
    case EditSettings(edit) =>
      ClearPlan(form).(setup := edit.setup, maxDeleteCount := edit.maxDeleteCount,
                       maxDeleteBytes := edit.maxDeleteBytes)
    case StartSync =>
      if form.setup.mode != Sync then form
      else if form.plan.None? || form.plan.value.summary.conflicts > 0 then form.(error := true)
      else if form.runPlan.None? then form.(error := true)
      else
        var run := form.runPlan.value;
        if run.transfers == [] && run.deletes == [] then form.(error := true)
        else if !WithinGuardrails(form, run) then form.(error := true)
        else if run.deletes == [] then
          form.(error := false, confirm := None, execution := Some(Started(Sync, run)))
        else
          form.(error := false,
                confirm := Some(Confirm(|run.deletes|, run.totalDeleteBytes, NeedsTyping(form, run), "")))
    case StartCopy =>
      if form.setup.mode != Copy then form
      else if form.runPlan.None? || form.runPlan.value.transfers == [] then form.(error := true)
      else form.(execution := Some(Started(Copy, form.runPlan.value)))
    case CancelConfirm => form.(confirm := None)
    case ConfirmTextChanged(text) =>
      if form.confirm.Some? then form.(confirm := Some(form.confirm.value.(text := text))) else form
    case ConfirmRun =>
      if form.confirm.None? then form
      else if form.confirm.value.typedRequired
              && !Confirms(form.confirm.value.text, form.confirm.value.plannedDeletes) then
        form.(error := true)
      else
        var cleared := form.(confirm := None, error := false);
        if form.runPlan.None? then cleared
        else cleared.(execution := Some(Started(Sync, form.runPlan.value)))
  }

  /** The job a message starts. */
  function JobOf(form: Form, message: Message): Option<Job> {
    match message
    case StartPlan(accepted) => if accepted then Some(SourceJob(form.setup)) else None
    case SourceEnumerated(objects, accepted) =>
      if objects.Some? && accepted then Some(DestinationJob(form.setup)) else None
    case DestinationEnumerated(objects, plannerLimit) =>
      if objects.Some? && FitsPlanner(form, objects.value, plannerLimit) then
        Some(PlanJob(form.setup, Snapshot(form), objects.value))
      else None
    case _ => None
  }

  /** The form object, whose handlers change it in place. */
  class SyncForm {
    var setup: Setup
    var maxDeleteCount: Limit
    var maxDeleteBytes: Limit
    var planning: bool
    var sourceSnapshot: Option<seq<SyncObject>>
    var plan: Option<SyncPlan>
    var runPlan: Option<RunPlan>
    var execution: Option<Started>
    var deleteConfirm: Option<Confirm>
    var sourceScanned: nat
    var destinationScanned: nat
    var error: bool

    ghost function View(): Form
      reads this
    {
      Form(setup, maxDeleteCount, maxDeleteBytes, planning, sourceSnapshot, plan, runPlan, execution, deleteConfirm,
           sourceScanned, destinationScanned, error)
    }

    constructor (initial: Setup)
      ensures View() == NewForm(initial)
    {
      setup, maxDeleteCount, maxDeleteBytes := initial.(mode := Diff), NoLimit, NoLimit;
      planning, sourceSnapshot, plan, runPlan, execution, deleteConfirm := false, None, None, None, None, None;
      sourceScanned, destinationScanned, error := 0, 0, false;
    }

    method ClearSyncPlan()
      modifies this`sourceSnapshot, this`plan, this`runPlan, this`execution, this`deleteConfirm, this`error
      ensures View() == ClearPlan(old(View()))
      ensures sourceSnapshot == None && plan == None && runPlan == None && execution == None
      ensures deleteConfirm == None && !error
    {
      sourceSnapshot, plan, runPlan, execution, deleteConfirm, error := None, None, None, None, None, false;
    }

    method ValidateSyncGuardrails(run: RunPlan) returns (ok: bool)
      ensures ok <==> WithinGuardrails(View(), run)
      ensures ok <==>
        && maxDeleteCount != BadText && maxDeleteBytes != BadText
        && (maxDeleteCount.AtMost? ==> 1 <= maxDeleteCount.n && |run.deletes| <= maxDeleteCount.n)
        && (maxDeleteBytes.AtMost? ==> 1 <= maxDeleteBytes.n && run.totalDeleteBytes <= maxDeleteBytes.n)
    {
      match maxDeleteCount {
        case BadText => return false;
        case AtMost(most) => if most == 0 || |run.deletes| > most { return false; }
        case NoLimit =>
      }
      match maxDeleteBytes {
        case BadText => return false;
        case AtMost(most) => if most == 0 || run.totalDeleteBytes > most { return false; }
        case NoLimit =>
      }
      return true;
    }

    method HandleStartSyncPlan(accepted: bool) returns (job: Option<Job>)
      modifies this
      ensures View() == Handle(old(View()), StartPlan(accepted)) && job == JobOf(old(View()), StartPlan(accepted))
      ensures plan == None && runPlan == None && execution == None && deleteConfirm == None && sourceSnapshot == None
      ensures sourceScanned == destinationScanned == 0
      ensures (planning <==> accepted) && (error <==> !accepted) && (job.Some? <==> accepted)
    {
      ClearSyncPlan();
      planning, sourceScanned, destinationScanned := true, 0, 0;
      if !accepted {
        planning, error := false, true;
        return None;
      }
      job := Some(SourceJob(setup));
    }

    method HandleSourceEnumerated(result: Option<seq<SyncObject>>, accepted: bool) returns (job: Option<Job>)
      modifies this
      ensures View() == Handle(old(View()), SourceEnumerated(result, accepted))
      ensures job == JobOf(old(View()), SourceEnumerated(result, accepted))
      ensures job.Some? <==> result.Some? && accepted
      ensures result.Some? ==> sourceSnapshot == result && sourceScanned == |result.value|
      ensures if job.Some? then planning == old(planning) && error == old(error) else !planning && error
    {
      match result {
        case Some(objects) =>
          sourceScanned, sourceSnapshot := |objects|, Some(objects);
          if accepted {
            return Some(DestinationJob(setup));
          }
        case None =>
      }
      planning, error, job := false, true, None;
    }

    method HandleDestinationEnumerated(result: Option<seq<SyncObject>>, plannerLimit: Option<nat>)
      returns (job: Option<Job>)
      modifies this
      ensures View() == Handle(old(View()), DestinationEnumerated(result, plannerLimit))
      ensures job == JobOf(old(View()), DestinationEnumerated(result, plannerLimit))
      ensures var source := if sourceSnapshot.Some? then sourceSnapshot.value else [];
              job.Some? <==>
                result.Some? && plannerLimit.Some? && |source| + |result.value| <= plannerLimit.value
      ensures result.Some? ==> destinationScanned == |result.value|
      ensures if job.Some? then planning == old(planning) && error == old(error) else !planning && error
    {
      match result {
        case Some(objects) =>
          destinationScanned := |objects|;
          var source := if sourceSnapshot.Some? then sourceSnapshot.value else [];
          if plannerLimit.Some? && |source| + |objects| <= plannerLimit.value {
            return Some(PlanJob(setup, source, objects));
          }
        case None =>
      }
      planning, error, job := false, true, None;
    }

    method HandlePlanBuilt(result: Option<SyncPlan>)
      modifies this
      ensures View() == Handle(old(View()), PlanBuilt(result))
      ensures !planning && (result.None? ==> error)
      ensures result.Some? && setup.mode != Diff && runPlan == None ==> error
    {
      planning := false;
      match result {
        case Some(built) =>
          runPlan := None;
          if setup.mode != Diff {
            var lowered := PrepareSyncRunPlan(setup.from, setup.to, built.items);
            match lowered {
              case Ok(run) => runPlan := Some(run);
              case Err(_) => error := true;
            }
          }
          plan := result;
        case None => error := true;
      }
    }

    method HandleStartSync()
      modifies this
      ensures View() == Handle(old(View()), StartSync)
    {
      if setup.mode != Sync {
        return;
      }
      if plan == None || plan.value.summary.conflicts > 0 || runPlan == None {
        error := true;
        return;
      }
      var run := runPlan.value;
      if run.transfers == [] && run.deletes == [] {
        error := true;
        return;
      }
      var ok := ValidateSyncGuardrails(run);
      if !ok {
        error := true;
        return;
      }
      error, deleteConfirm := false, None;
      if run.deletes == [] {
        execution := Some(Started(Sync, run));
        return;
      }
      var reason := DeleteConfirmReason(|run.deletes|, run.totalDeleteBytes, destinationScanned, sourceScanned);
      deleteConfirm := Some(Confirm(|run.deletes|, run.totalDeleteBytes, reason.Some?, ""));
    }

    method HandleStartSyncCopy()
      modifies this
      ensures View() == Handle(old(View()), StartCopy)
    {
      if setup.mode != Copy {
        return;
      }
      if runPlan == None || runPlan.value.transfers == [] {
        error := true;
        return;
      }
      execution := Some(Started(Copy, runPlan.value));
    }

    method HandleConfirmSyncDeleteRun()
      modifies this
      ensures View() == Handle(old(View()), ConfirmRun)
      ensures old(deleteConfirm).Some? && deleteConfirm == old(deleteConfirm) ==>
                error && execution == old(execution)
      ensures old(deleteConfirm).Some? && deleteConfirm != old(deleteConfirm) ==> deleteConfirm == None && !error
    {
      match deleteConfirm
      case None =>
      case Some(confirm) =>
        if confirm.typedRequired && !Confirms(confirm.text, confirm.plannedDeletes) {
          error := true;
          return;
        }
        deleteConfirm, error := None, false;
        if runPlan.Some? {
          execution := Some(Started(Sync, runPlan.value));
        }
    }
  }

  // ----- What an open confirmation rests on -----

  /** A plan that may delete: reviewed without conflicts and within the guardrails. */
  predicate Deletable(form: Form) {
    && form.setup.mode == Sync
    && form.plan.Some? && form.runPlan.Some?
    && form.plan.value.summary.conflicts == 0
    && WithinGuardrails(form, form.runPlan.value)
  }

  predicate Agree(plan: SyncPlan, run: RunPlan) {
    |run.deletes| == plan.summary.deletes && run.totalDeleteBytes == plan.summary.bytesToDelete
  }

  predicate Shows(confirm: Confirm, run: RunPlan) {
    confirm.plannedDeletes == |run.deletes| > 0 && confirm.plannedBytes == run.totalDeleteBytes
  }

  ghost predicate GateInv(form: Form) {
    && (form.planning ==> form.plan.None? && form.runPlan.None? && form.confirm.None?)
    && (form.plan.Some? && form.runPlan.Some? ==> Agree(form.plan.value, form.runPlan.value))
    && (form.confirm.Some? ==>
          && Deletable(form)
          && Shows(form.confirm.value, form.runPlan.value)
          && (form.confirm.value.typedRequired <==> NeedsTyping(form, form.runPlan.value)))
  }

  /** A plan result is the work of the planner, whose summary counts its items. */
  ghost predicate IsGenuine(message: Message) {
    message.PlanBuilt? && message.built.Some? ==> Tallies(message.built.value.summary, message.built.value.items)
  }

  /** Would the result leave an open confirmation true to the form? A count must not change whether typing
      is asked for; a plan must come to the confirmed number and bytes, have no conflict, be within the
      guardrails and ask for typing if and only if the confirmation does. */
  predicate Harmless(form: Form, message: Message) {
    form.confirm.None? ||
    match message
    case SourceEnumerated(objects, _) =>
      objects.None?
      || (form.runPlan.Some? ==>
            (form.confirm.value.typedRequired <==>
             NeedsTyping(form.(sourceScanned := |objects.value|), form.runPlan.value)))
    case DestinationEnumerated(objects, _) =>
      objects.None?
      || (form.runPlan.Some? ==>
            (form.confirm.value.typedRequired <==>
             NeedsTyping(form.(destinationScanned := |objects.value|), form.runPlan.value)))
    case PlanBuilt(built) =>
      built.None?
      || (var run := RunPlanFor(form.setup, built.value);
          && run.Some? && built.value.summary.conflicts == 0
          && Shows(form.confirm.value, run.value) && WithinGuardrails(form, run.value)
          && (form.confirm.value.typedRequired <==> NeedsTyping(form, run.value)))
    case _ => true
  }

  lemma LoweredPlanAgrees(setup: Setup, plan: SyncPlan)
    requires Tallies(plan.summary, plan.items)
    ensures RunPlanFor(setup, plan).Some? ==> Agree(plan, RunPlanFor(setup, plan).value)
  {
    if RunPlanFor(setup, plan).Some? {
      RunPlanIsLowered(setup.from, setup.to, plan.items);
      RunPlanAgreesWithSummary(setup.from, setup.to, plan, RunPlanFor(setup, plan).value);
    }
  }

  /** Exactly which messages keep the gate: every one the user sends, and every result that is harmless. */
  lemma GateKeptIff(form: Form, message: Message)
    requires GateInv(form) && IsGenuine(message)
    ensures GateInv(Handle(form, message)) <==> Harmless(form, message)
  {
    if message.PlanBuilt? && message.built.Some? {
      LoweredPlanAgrees(form.setup, message.built.value);
    }
  }

  // ----- Every session -----

  /** What came back from a listing. */
  datatype Report = Report(job: Job, objects: seq<SyncObject>)

  /** The form, the jobs that run beside it, whichever form started them, and the listings so far. */
  datatype Session = Session(form: Form, jobs: seq<Job>, reports: set<Report>)

  datatype Event =
    | User(message: Message)
    | Returned(index: nat, listing: Option<seq<SyncObject>>, accepted: bool, plannerLimit: Option<nat>)

  /** The message a job comes back with. */
  function ResultOf(job: Job, event: Event): Message
    requires event.Returned?
  {
    match job
    case ListSource(_, _) => SourceEnumerated(event.listing, event.accepted)
    case ListDestination(_, _) => DestinationEnumerated(event.listing, event.plannerLimit)
    case Build(_, _, _, _, _) => PlanBuilt(Some(PlanOfJob(job)))
  }

  /** The user cannot start a plan while one is being made. */
  predicate Enabled(s: Session, event: Event) {
    match event
    case User(message) =>
      && !message.SourceEnumerated? && !message.DestinationEnumerated? && !message.PlanBuilt?
      && (message.StartPlan? ==> !s.form.planning)
    case Returned(k, _, _, _) => k < |s.jobs|
  }

  function MessageOf(s: Session, event: Event): Message
    requires Enabled(s, event)
  {
    match event
    case User(message) => message
    case Returned(k, _, _, _) => ResultOf(s.jobs[k], event)
  }

  function Reported(reports: set<Report>, job: Job, listing: Option<seq<SyncObject>>): set<Report> {
    if job.Build? || listing.None? then reports else reports + {Report(job, listing.value)}
  }

  function Without(jobs: seq<Job>, event: Event): seq<Job>
    requires event.Returned? ==> event.index < |jobs|
  {
    if event.Returned? then jobs[..event.index] + jobs[event.index + 1..] else jobs
  }

  function Apply(s: Session, event: Event): Session
    requires Enabled(s, event)
  {
    var message := MessageOf(s, event);
    var job := JobOf(s.form, message);
    Session(
      Handle(s.form, message),
      Without(s.jobs, event) + (if job.Some? then [job.value] else []),
      if event.Returned? then Reported(s.reports, s.jobs[event.index], event.listing) else s.reports)
  }

  ghost predicate IsSession(s: Session, events: seq<Event>, last: Session)
    decreases |events|
  {
    if events == [] then last == s
    else Enabled(s, events[0]) && IsSession(Apply(s, events[0]), events[1..], last)
  }

  function NewSession(initial: Setup): Session {
    Session(NewForm(initial), [], {})
  }

  /** Every result was harmless when it came back. */
  ghost predicate AllHarmless(s: Session, events: seq<Event>)
    decreases |events|
  {
    events != [] ==>
      && Enabled(s, events[0]) && Harmless(s.form, MessageOf(s, events[0]))
      && AllHarmless(Apply(s, events[0]), events[1..])
  }

  lemma {:induction false} SessionKeepsGate(s: Session, events: seq<Event>, last: Session)
    requires GateInv(s.form) && IsSession(s, events, last) && AllHarmless(s, events)
    ensures GateInv(last.form)
    decreases |events|
  {
    if events != [] {
      GateKeptIff(s.form, MessageOf(s, events[0]));
      SessionKeepsGate(Apply(s, events[0]), events[1..], last);
    }
  }

  /** The execution a message starts, told apart from one that goes on. */
  function Starts(form: Form, message: Message): Option<Started> {
    Handle(form.(execution := None), message).execution
  }

  /** No execution appears except by being started. */
  lemma OnlyStartsExecute(form: Form, message: Message)
    ensures Handle(form, message).execution == None
            || (Handle(form, message).execution == form.execution && Starts(form, message) == None)
            || Handle(form, message).execution == Starts(form, message)
  {
  }

  /** In numbers: each limit is left empty or is a positive number, and is not exceeded. */
  predicate LimitsAllow(form: Form, run: RunPlan) {
    && form.maxDeleteCount != BadText && form.maxDeleteBytes != BadText
    && (form.maxDeleteCount.AtMost? ==> 1 <= form.maxDeleteCount.n && |run.deletes| <= form.maxDeleteCount.n)
    && (form.maxDeleteBytes.AtMost? ==> 1 <= form.maxDeleteBytes.n && run.totalDeleteBytes <= form.maxDeleteBytes.n)
  }

  /** The only way to a sync run that deletes is to confirm it, and then: the plan the user saw has no
      conflict, its deletes are within the guardrails, the confirmation on screen is for exactly that
      many deletes and bytes, and if any threshold is crossed the text typed names that number and no
      other. This holds in every session whose results were harmless when they came back. */
  lemma {:induction false} DestructiveRunIsConfirmed(initial: Setup, events: seq<Event>, last: Session, event: Event)
    requires IsSession(NewSession(initial), events, last) && AllHarmless(NewSession(initial), events)
    requires Enabled(last, event)
    requires var started := Starts(last.form, MessageOf(last, event));
             started.Some? && started.value.mode == Sync && started.value.runPlan.deletes != []
    ensures var form, run := last.form, Starts(last.form, MessageOf(last, event)).value.runPlan;
            && event == User(ConfirmRun)
            && form.runPlan == Some(run) && Deletable(form)
            && LimitsAllow(form, run)
            && form.confirm.Some?
            && form.confirm.value.plannedDeletes == |run.deletes| == form.plan.value.summary.deletes
            && form.confirm.value.plannedBytes == run.totalDeleteBytes == form.plan.value.summary.bytesToDelete
            && (|run.deletes| > 1000 || run.totalDeleteBytes > 10_737_418_240
                || 0 < form.destinationScanned < 4 * |run.deletes| || form.sourceScanned == 0
                <==> form.confirm.value.typedRequired)
            && (form.confirm.value.typedRequired ==>
                  forall n: nat :: Confirms(form.confirm.value.text, n) <==> n == |run.deletes|)
  {
    SessionKeepsGate(NewSession(initial), events, last);
    ConfirmedStart(last.form, MessageOf(last, event));
  }

  lemma ConfirmedStart(form: Form, message: Message)
    requires GateInv(form)
    requires var started := Starts(form, message);
             started.Some? && started.value.mode == Sync && started.value.runPlan.deletes != []
    ensures var run := Starts(form, message).value.runPlan;
            && message == ConfirmRun
            && form.runPlan == Some(run) && Deletable(form)
            && LimitsAllow(form, run)
            && form.confirm.Some?
            && form.confirm.value.plannedDeletes == |run.deletes| == form.plan.value.summary.deletes
            && form.confirm.value.plannedBytes == run.totalDeleteBytes == form.plan.value.summary.bytesToDelete
            && (|run.deletes| > 1000 || run.totalDeleteBytes > 10_737_418_240
                || 0 < form.destinationScanned < 4 * |run.deletes| || form.sourceScanned == 0
                <==> form.confirm.value.typedRequired)
            && (form.confirm.value.typedRequired ==>
                  forall n: nat :: Confirms(form.confirm.value.text, n) <==> n == |run.deletes|)
  {
    var run := Starts(form, message).value.runPlan;
    if form.confirm.value.typedRequired {
      forall n: nat | Confirms(form.confirm.value.text, n) ensures n == |run.deletes| {
        ConfirmsOneNumber(form.confirm.value.text, n, |run.deletes|);
      }
    }
  }

  /** What asking for a sync run comes to. In sync mode, with a plan without conflicts, a run plan that is not
      empty and limits that allow it, a run without deletes starts, and one with deletes opens the
      confirmation, which shows its numbers and asks for typing when there are over 1000 deletes or over
      10 GiB, more than a quarter of what the destination listed, or an empty source. Anything else in sync
      mode is reported as an error, and in another mode nothing happens. */
  lemma StartSyncOutcomes(form: Form)
    ensures var next := Handle(form, StartSync);
            var ready := && form.plan.Some? && form.plan.value.summary.conflicts == 0 && form.runPlan.Some?
                         && |form.runPlan.value.transfers| + |form.runPlan.value.deletes| > 0
                         && LimitsAllow(form, form.runPlan.value);
            if form.setup.mode != Sync then next == form
            else if !ready then next == form.(error := true)
            else
              var run := form.runPlan.value;
              if |run.deletes| == 0 then
                next == form.(error := false, confirm := None, execution := Some(Started(Sync, run)))
              else
                && next.confirm.Some?
                && next == form.(error := false, confirm := next.confirm)
                && next.confirm.value.plannedDeletes == |run.deletes|
                && next.confirm.value.plannedBytes == run.totalDeleteBytes && next.confirm.value.text == ""
                && (next.confirm.value.typedRequired <==>
                    || |run.deletes| > 1000 || run.totalDeleteBytes > 10_737_418_240
                    || 0 < form.destinationScanned < 4 * |run.deletes| || form.sourceScanned == 0)
  {
  }

  /** Exactly what starts a run, and of which run plan: asking for a sync without deletes that is allowed,
      confirming a sync with the text that was asked for, or asking for a copy of something. */
  lemma StartsIff(form: Form, message: Message, mode: SyncMode, run: RunPlan)
    ensures Starts(form, message) == Some(Started(mode, run)) <==>
            && form.runPlan == Some(run)
            && (|| (message == StartSync && mode == Sync && form.setup.mode == Sync
                    && form.plan.Some? && form.plan.value.summary.conflicts == 0
                    && |run.deletes| == 0 && |run.transfers| > 0 && LimitsAllow(form, run))
                || (message == ConfirmRun && mode == Sync && form.confirm.Some?
                    && (form.confirm.value.typedRequired ==>
                          exists front, numeral, back ::
                            ReadsDelete(form.confirm.value.text, front, numeral, back,
                                        form.confirm.value.plannedDeletes)))
                || (message == StartCopy && mode == Copy && form.setup.mode == Copy && |run.transfers| > 0))
  {
    if form.confirm.Some? {
      ConfirmsIff(form.confirm.value.text, form.confirm.value.plannedDeletes);
    }
  }

  /** The messages that take a confirmation off the screen, whatever was typed. */
  predicate Closes(message: Message) {
    message == CancelConfirm || message.EditSettings? || message.StartPlan? || message.OpenSync?
  }

  /** Once cancelled, or dropped by an edit, a new plan or a reset, a confirmation cannot be acted on: whatever
      comes then, confirming starts nothing until a sync is asked for again. */
  lemma {:induction false} ClosedUntilAsked(s: Session, closing: Event, events: seq<Event>, last: Session)
    requires Enabled(s, closing) && Closes(MessageOf(s, closing))
    requires IsSession(Apply(s, closing), events, last) && User(StartSync) !in events
    ensures last.form.confirm == None && Starts(last.form, ConfirmRun) == None
  {
    StaysClosed(Apply(s, closing), events, last);
  }

  lemma {:induction false} StaysClosed(s: Session, events: seq<Event>, last: Session)
    requires s.form.confirm == None && IsSession(s, events, last) && User(StartSync) !in events
    ensures last.form.confirm == None
    decreases |events|
  {
    if events != [] {
      assert events[0] in events;
      OnlyAskingOpens(s.form, MessageOf(s, events[0]));
      StaysClosed(Apply(s, events[0]), events[1..], last);
    }
  }

  lemma OnlyAskingOpens(form: Form, message: Message)
    requires form.confirm == None && message != StartSync
    ensures Handle(form, message).confirm == None
  {
  }

  /** In diff mode there is nothing to run: whatever came back when, a form in diff mode has no run plan. */
  lemma {:induction false} DiffHasNoRunPlan(s: Session, events: seq<Event>, last: Session)
    requires (s.form.setup.mode == Diff ==> s.form.runPlan == None) && IsSession(s, events, last)
    ensures last.form.setup.mode == Diff ==> last.form.runPlan == None
    decreases |events|
  {
    if events != [] {
      RunPlanNeedsMode(s.form, MessageOf(s, events[0]));
      DiffHasNoRunPlan(Apply(s, events[0]), events[1..], last);
    }
  }

  lemma RunPlanNeedsMode(form: Form, message: Message)
    requires form.setup.mode == Diff ==> form.runPlan == None
    ensures var next := Handle(form, message); next.setup.mode == Diff ==> next.runPlan == None
  {
  }

  /** So wherever an execution of a sync that deletes appears on the form, it was confirmed like that. */
  lemma {:induction false} AppearingRunIsConfirmed(initial: Setup, events: seq<Event>, last: Session, event: Event)
    requires IsSession(NewSession(initial), events, last) && AllHarmless(NewSession(initial), events)
    requires Enabled(last, event)
    requires var next := Apply(last, event).form.execution;
             && next.Some? && next != last.form.execution
             && next.value.mode == Sync && next.value.runPlan.deletes != []
    ensures event == User(ConfirmRun) && Deletable(last.form) && last.form.confirm.Some?
    ensures Apply(last, event).form.execution == Some(Started(Sync, last.form.runPlan.value))
    ensures last.form.confirm.value.plannedDeletes == |last.form.runPlan.value.deletes|
  {
    OnlyStartsExecute(last.form, MessageOf(last, event));
    DestructiveRunIsConfirmed(initial, events, last, event);
  }

  // ----- Sessions without a reset under way -----

  /** The form is not reopened while a job runs. */
  predicate Tidy(s: Session, event: Event) {
    event.User? && event.message.OpenSync? ==> s.jobs == []
  }

  ghost predicate AllTidy(s: Session, events: seq<Event>)
    decreases |events|
  {
    events != [] ==> Enabled(s, events[0]) && Tidy(s, events[0]) && AllTidy(Apply(s, events[0]), events[1..])
  }

  /** One job at most, and one exactly while planning. */
  predicate OneJob(s: Session) {
    |s.jobs| <= 1 && (s.form.planning <==> |s.jobs| == 1)
  }

  lemma ApplyKeepsOneJob(s: Session, event: Event)
    requires OneJob(s) && Enabled(s, event) && Tidy(s, event)
    ensures OneJob(Apply(s, event))
  {
    PlanningTells(s.form, MessageOf(s, event));
    if event.Returned? {
      assert Without(s.jobs, event) == [];
    } else {
      assert Without(s.jobs, event) == s.jobs;
    }
  }

  /** Planning goes on with the job a message starts; what starts none ends it or leaves it as it is. */
  lemma PlanningTells(form: Form, message: Message)
    ensures var next, job := Handle(form, message).planning, JobOf(form, message);
            match message
            case StartPlan(_) => next <==> job.Some?
            case SourceEnumerated(_, _) => next <==> form.planning && job.Some?
            case DestinationEnumerated(_, _) => next <==> form.planning && job.Some?
            case PlanBuilt(_) => !next && job == None
            case OpenSync(_) => !next && job == None
            case _ => (next <==> form.planning) && job == None
  {
  }

  /** Then every result comes back while planning, when no confirmation is open, so all of the above holds. */
  lemma {:induction false} TidyIsHarmless(s: Session, events: seq<Event>)
    requires OneJob(s) && GateInv(s.form) && AllTidy(s, events)
    ensures AllHarmless(s, events)
    decreases |events|
  {
    if events != [] {
      var message := MessageOf(s, events[0]);
      assert Harmless(s.form, message);
      GateKeptIff(s.form, message);
      ApplyKeepsOneJob(s, events[0]);
      TidyIsHarmless(Apply(s, events[0]), events[1..]);
    }
  }

  // ----- Is the plan on the form the plan of its settings? -----

  /** Does an edit leave alone everything the plan being made rests on so far? While the source is listed:
      its side and the filters. While the destination is listed nothing may be edited, as every edit drops
      the source's listing, unless that is empty. While the planner compares, all that it was given. */
  predicate Spares(form: Form, job: Job, edit: Edit) {
    match job
    case ListSource(_, _) => SourceJob(edit.setup) == job
    case ListDestination(_, _) =>
      Snapshot(form) == [] && SourceJob(edit.setup) == SourceJob(form.setup) && DestinationJob(edit.setup) == job
    case Build(source, destination, _, _, _) =>
      && SourceJob(edit.setup) == SourceJob(form.setup) && DestinationJob(edit.setup) == DestinationJob(form.setup)
      && PlanJob(edit.setup, source, destination) == job
  }

  /** No reset while a job runs, and no edit that the plan being made does not survive. */
  predicate Steady(s: Session, event: Event) {
    && Tidy(s, event)
    && (event.User? && event.message.EditSettings? && s.jobs != [] ==> Spares(s.form, s.jobs[0], event.message.edit))
  }

  ghost predicate AllSteady(s: Session, events: seq<Event>)
    decreases |events|
  {
    events != [] ==> Enabled(s, events[0]) && Steady(s, events[0]) && AllSteady(Apply(s, events[0]), events[1..])
  }

  predicate Listed(reports: set<Report>, setup: Setup, source: seq<SyncObject>, destination: seq<SyncObject>) {
    Report(SourceJob(setup), source) in reports && Report(DestinationJob(setup), destination) in reports
  }

  function PlanUnder(setup: Setup, source: seq<SyncObject>, destination: seq<SyncObject>): SyncPlan {
    PlanOf(source, destination, setup.mode, setup.policy, setup.compare)
  }

  /** The plan comes from listings and planning that all used these settings, and the listings had as many
      objects as are shown. */
  ghost predicate MadeUnder(reports: set<Report>, setup: Setup, plan: SyncPlan, sourceScanned: nat,
                            destinationScanned: nat)
  {
    exists source, destination ::
      && Listed(reports, setup, source, destination) && plan == PlanUnder(setup, source, destination)
      && |source| == sourceScanned && |destination| == destinationScanned
  }

  /** The plan on the form was made, and its run plan lowered, under the form's settings, from listings with
      the numbers of objects the form shows. */
  ghost predicate PlanIsCurrent(form: Form, reports: set<Report>) {
    && (form.plan.Some? ==>
          MadeUnder(reports, form.setup, form.plan.value, form.sourceScanned, form.destinationScanned))
    && (form.runPlan.Some? ==> form.plan.Some? && form.runPlan == RunPlanFor(form.setup, form.plan.value))
  }

  /** What the job was given, and what the form keeps for the next one, is as the form's settings have it. */
  ghost predicate JobIsCurrent(form: Form, reports: set<Report>, job: Job) {
    match job
    case ListSource(_, _) => job == SourceJob(form.setup)
    case ListDestination(_, _) =>
      && job == DestinationJob(form.setup) && Report(SourceJob(form.setup), Snapshot(form)) in reports
      && form.sourceScanned == |Snapshot(form)|
    case Build(source, destination, _, _, _) =>
      && job == PlanJob(form.setup, source, destination) && Listed(reports, form.setup, source, destination)
      && form.sourceScanned == |source| && form.destinationScanned == |destination|
  }

  predicate NoPlan(form: Form) {
    form.plan == None && form.runPlan == None
  }

  ghost predicate IsCurrent(s: Session) {
    && OneJob(s) && PlanIsCurrent(s.form, s.reports)
    && (s.jobs != [] ==> NoPlan(s.form) && JobIsCurrent(s.form, s.reports, s.jobs[0]))
  }

  /** What the user sends leaves the plan, the snapshot and the settings together, or drops the plan. */
  lemma UserKeepsOrDrops(form: Form, message: Message)
    requires !message.SourceEnumerated? && !message.DestinationEnumerated? && !message.PlanBuilt?
    ensures var next := Handle(form, message);
            || NoPlan(next)
            || (next.plan == form.plan && next.runPlan == form.runPlan && next.setup == form.setup
                && next.sourceScanned == form.sourceScanned && next.destinationScanned == form.destinationScanned)
    ensures NoPlan(form) ==> NoPlan(Handle(form, message))
    ensures !message.OpenSync? && !message.EditSettings? && !message.StartPlan? ==>
              var next := Handle(form, message);
              && next.sourceSnapshot == form.sourceSnapshot && next.setup == form.setup
              && next.sourceScanned == form.sourceScanned && next.destinationScanned == form.destinationScanned
  {
  }

  /** An edit the plan being made survives. */
  lemma SparedStaysCurrent(form: Form, reports: set<Report>, job: Job, edit: Edit)
    requires JobIsCurrent(form, reports, job) && Spares(form, job, edit)
    ensures JobIsCurrent(Handle(form, EditSettings(edit)), reports, job)
  {
  }

  lemma UserKeepsCurrent(s: Session, event: Event)
    requires IsCurrent(s) && Enabled(s, event) && Steady(s, event) && event.User?
    ensures IsCurrent(Apply(s, event))
  {
    UserKeepsOrDrops(s.form, event.message);
    ApplyKeepsOneJob(s, event);
    assert s.jobs + [] == s.jobs;
    if event.message.EditSettings? && s.jobs != [] {
      SparedStaysCurrent(s.form, s.reports, s.jobs[0], event.message.edit);
    }
  }

  lemma ReturnKeepsCurrent(s: Session, event: Event)
    requires IsCurrent(s) && event.Returned? && Enabled(s, event)
    ensures IsCurrent(Apply(s, event))
  {
    var job, message := s.jobs[0], MessageOf(s, event);
    ApplyKeepsOneJob(s, event);
    ReturnedForm(s, event);
    if job.Build? {
      BuiltIsCurrent(s.form, s.reports, job);
    } else {
      ListingKeepsCurrent(s.form, s.reports, job, event);
    }
  }

  /** The parts of the session after its one job came back. */
  lemma ReturnedForm(s: Session, event: Event)
    requires OneJob(s) && event.Returned? && Enabled(s, event)
    ensures var job, message := s.jobs[0], MessageOf(s, event);
            && message == ResultOf(job, event)
            && Apply(s, event).form == Handle(s.form, message)
            && Apply(s, event).reports == Reported(s.reports, job, event.listing)
            && Apply(s, event).jobs == if JobOf(s.form, message).Some? then [JobOf(s.form, message).value] else []
  {
    assert Without(s.jobs, event) == [];
  }

  /** A plan that comes back from a current job is current. */
  lemma BuiltIsCurrent(form: Form, reports: set<Report>, job: Job)
    requires JobIsCurrent(form, reports, job) && job.Build?
    ensures var plan := PlanUnder(form.setup, job.source, job.destination);
            && MadeUnder(reports, form.setup, plan, form.sourceScanned, form.destinationScanned)
            && PlanIsCurrent(Handle(form, PlanBuilt(Some(plan))), reports)
            && JobOf(form, PlanBuilt(Some(plan))) == None
  {
    assert Listed(reports, form.setup, job.source, job.destination);
  }

  /** A listing that comes back from a current job starts a current job, and makes no plan. */
  lemma ListingKeepsCurrent(form: Form, reports: set<Report>, job: Job, event: Event)
    requires NoPlan(form) && JobIsCurrent(form, reports, job) && !job.Build? && event.Returned?
    ensures var message := ResultOf(job, event);
            var more := Reported(reports, job, event.listing);
            var next := JobOf(form, message);
            && NoPlan(Handle(form, message))
            && (next.Some? ==> JobIsCurrent(Handle(form, message), more, next.value))
  {
    if job.ListSource? {
      SourceStartsCurrent(form, reports, job, event);
    } else {
      DestinationStartsCurrent(form, reports, job, event);
    }
  }

  lemma SourceStartsCurrent(form: Form, reports: set<Report>, job: Job, event: Event)
    requires job == SourceJob(form.setup) && event.Returned?
    ensures var message := SourceEnumerated(event.listing, event.accepted);
            JobOf(form, message).Some? ==>
              JobIsCurrent(Handle(form, message), Reported(reports, job, event.listing), JobOf(form, message).value)
  {
  }

  lemma DestinationStartsCurrent(form: Form, reports: set<Report>, job: Job, event: Event)
    requires JobIsCurrent(form, reports, job) && job.ListDestination? && event.Returned?
    ensures var message := DestinationEnumerated(event.listing, event.plannerLimit);
            JobOf(form, message).Some? ==>
              JobIsCurrent(Handle(form, message), Reported(reports, job, event.listing), JobOf(form, message).value)
  {
  }

  lemma {:induction false} SteadyIsCurrent(s: Session, events: seq<Event>, last: Session)
    requires IsCurrent(s) && IsSession(s, events, last) && AllSteady(s, events)
    ensures IsCurrent(last)
    decreases |events|
  {
    if events != [] {
      if events[0].User? {
        UserKeepsCurrent(s, events[0]);
      } else {
        ReturnKeepsCurrent(s, events[0]);
      }
      SteadyIsCurrent(Apply(s, events[0]), events[1..], last);
    }
  }

  lemma StartedFromPlan(form: Form, message: Message)
    requires !message.SourceEnumerated? && !message.DestinationEnumerated? && !message.PlanBuilt?
    ensures Starts(form, message).Some? ==> form.runPlan == Some(Starts(form, message).value.runPlan)
  {
  }

  lemma ResultsStartNothing(form: Form, message: Message)
    requires message.SourceEnumerated? || message.DestinationEnumerated? || message.PlanBuilt?
    ensures Starts(form, message) == None
  {
  }

  /** In every session without a reset while a job runs and without an edit that the plan being made does
      not survive, a run that is started is the run plan of a plan of two listings, all made under exactly
      the settings now on the form; and the numbers of objects the form shows, which the thresholds of the
      confirmation go by, are those of these two listings. */
  lemma {:induction false} StartedRunIsCurrent(first: Session, events: seq<Event>, last: Session, event: Event)
    requires first == NewSession(first.form.setup)
    requires IsSession(first, events, last) && AllSteady(first, events)
    requires Enabled(last, event) && Starts(last.form, MessageOf(last, event)).Some?
    ensures exists source, destination ::
              && Listed(last.reports, last.form.setup, source, destination)
              && RunPlanFor(last.form.setup, PlanUnder(last.form.setup, source, destination))
                 == Some(Starts(last.form, MessageOf(last, event)).value.runPlan)
              && last.form.sourceScanned == |source| && last.form.destinationScanned == |destination|
  {
    assert IsCurrent(first);
    CurrentToTheEnd(first, events, last, event);
  }

  lemma {:induction false} CurrentToTheEnd(s: Session, events: seq<Event>, last: Session, event: Event)
    requires IsCurrent(s) && IsSession(s, events, last) && AllSteady(s, events)
    requires Enabled(last, event) && Starts(last.form, MessageOf(last, event)).Some?
    ensures exists source, destination ::
              && Listed(last.reports, last.form.setup, source, destination)
              && RunPlanFor(last.form.setup, PlanUnder(last.form.setup, source, destination))
                 == Some(Starts(last.form, MessageOf(last, event)).value.runPlan)
              && last.form.sourceScanned == |source| && last.form.destinationScanned == |destination|
  {
    SteadyIsCurrent(s, events, last);
    if event.User? {
      StartedFromPlan(last.form, event.message);
      var source, destination :| Listed(last.reports, last.form.setup, source, destination)
                                 && last.form.plan.value == PlanUnder(last.form.setup, source, destination)
                                 && |source| == last.form.sourceScanned
                                 && |destination| == last.form.destinationScanned;
    } else {
      ResultsStartNothing(last.form, MessageOf(last, event));
    }
  }

  // ----- One planning, with edits in between -----

  function Edited(form: Form, edits: seq<Edit>): Form
    decreases |edits|
  {
    if edits == [] then form else Edited(Handle(form, EditSettings(edits[0])), edits[1..])
  }

  /** The settings after some edits. */
  function SetupAfter(setup: Setup, edits: seq<Edit>): Setup {
    if edits == [] then setup else edits[|edits| - 1].setup
  }

  lemma {:induction false} EditedForm(form: Form, edits: seq<Edit>)
    ensures var edited := Edited(form, edits);
            && edited.setup == SetupAfter(form.setup, edits)
            && edited.planning == form.planning && edited.sourceScanned == form.sourceScanned
            && edited.sourceSnapshot == if edits == [] then form.sourceSnapshot else None
    decreases |edits|
  {
    if edits != [] {
      EditedForm(Handle(form, EditSettings(edits[0])), edits[1..]);
    }
  }

  /** One planning from its start to its result, with the edits made during the listing of the source, the
      listing of the destination, and the comparison. */
  datatype Planning = Planning(
    start: Form,
    first: seq<Edit>,
    source: seq<SyncObject>,
    second: seq<Edit>,
    destination: seq<SyncObject>,
    limit: nat,
    third: seq<Edit>)

  function AtSource(p: Planning): Form {
    Edited(Handle(p.start, StartPlan(true)), p.first)
  }

  function AtDestination(p: Planning): Form {
    Edited(Handle(AtSource(p), SourceEnumerated(Some(p.source), true)), p.second)
  }

  function AtResult(p: Planning): Form {
    Edited(Handle(AtDestination(p), DestinationEnumerated(Some(p.destination), Some(p.limit))), p.third)
  }

  /** The job that builds the plan, with what it was given. */
  function BuildJob(p: Planning): Option<Job> {
    JobOf(AtDestination(p), DestinationEnumerated(Some(p.destination), Some(p.limit)))
  }

  function Result(p: Planning, job: Job): Form
    requires job.Build?
  {
    Handle(AtResult(p), PlanBuilt(Some(PlanOfJob(job))))
  }

  /** Everything the plan rests on is as the settings the form ends with have it: what the source was
      listed by, and that this listing was used, what the destination was listed by, and what the planner
      decided by. The plan is lowered by the settings the form ends with in any case. */
  predicate RestsOnCurrent(p: Planning, job: Job)
    requires job.Build?
  {
    var setup := Result(p, job).setup;
    && JobOf(p.start, StartPlan(true)) == Some(SourceJob(setup))
    && JobOf(AtSource(p), SourceEnumerated(Some(p.source), true)) == Some(DestinationJob(setup))
    && job == PlanJob(setup, p.source, p.destination)
  }

  /** Exactly when a plan is current: nothing was edited between the two listings, unless the source was
      empty, and the settings end with the source's side and filters of when the source's listing started,
      the destination's side and filters of when the destination's started, and the mode, policy and
      comparison of when the planner did. */
  lemma PlanIsCurrentIff(p: Planning)
    requires |p.source| + |p.destination| <= p.limit
    ensures BuildJob(p).Some? && BuildJob(p).value.Build?
    ensures var setup0 := p.start.setup;
            var setup1 := SetupAfter(setup0, p.first);
            var setup2 := SetupAfter(setup1, p.second);
            var setup3 := SetupAfter(setup2, p.third);
            RestsOnCurrent(p, BuildJob(p).value) <==>
            && (p.second == [] || p.source == [])
            && setup0.from == setup3.from && setup0.filters == setup1.filters == setup3.filters
            && setup1.to == setup3.to
            && setup2.mode == setup3.mode && setup2.policy == setup3.policy && setup2.compare == setup3.compare
  {
    StagesOf(p);
    ResultSetup(p);
  }

  /** The stages of a planning. */
  lemma StagesOf(p: Planning)
    requires |p.source| + |p.destination| <= p.limit
    ensures AtSource(p).setup == SetupAfter(p.start.setup, p.first)
    ensures AtDestination(p).setup == SetupAfter(AtSource(p).setup, p.second)
    ensures AtDestination(p).sourceScanned == |p.source|
    ensures AtDestination(p).sourceSnapshot == if p.second == [] then Some(p.source) else None
    ensures BuildJob(p) == Some(PlanJob(AtDestination(p).setup, if p.second == [] then p.source else [], p.destination))
  {
    EditedForm(Handle(p.start, StartPlan(true)), p.first);
    EditedForm(Handle(AtSource(p), SourceEnumerated(Some(p.source), true)), p.second);
  }

  lemma ResultSetup(p: Planning)
    ensures AtResult(p).setup == SetupAfter(AtDestination(p).setup, p.third)
    ensures AtResult(p).sourceScanned == AtDestination(p).sourceScanned
    ensures forall built :: Handle(AtResult(p), PlanBuilt(built)).setup == AtResult(p).setup
  {
    EditedForm(Handle(AtDestination(p), DestinationEnumerated(Some(p.destination), Some(p.limit))), p.third);
  }

  /** A side that can be written to: a bucket, or a directory that is chosen. */
  predicate CanPlace(side: Side) {
    side.kind.S3Kind? || side.localPath.Some?
  }

  lemma {:induction false} EmptySourceItems(setup: Setup, destination: seq<SyncObject>)
    requires setup.mode == Sync && setup.policy.deleteExtras && CanPlace(setup.to)
    ensures var items := PlanUnder(setup, [], destination).items;
            && |items| == |ByPath(destination)|
            && (forall k :: 0 <= k < |items| ==>
                  items[k].action == Delete && LowerErrorOf(setup.from, setup.to, items[k]) == None)
  {
    var none, items := ByPath([]), PlanUnder(setup, [], destination).items;
    SortedPathsIsSorted(none.Keys + ByPath(destination).Keys);
    assert none.Keys + ByPath(destination).Keys == ByPath(destination).Keys;
    forall k | 0 <= k < |items|
      ensures items[k].action == Delete && LowerErrorOf(setup.from, setup.to, items[k]) == None
    {
      ExtraItem(setup, none, ByPath(destination), k);
    }
  }

  lemma ExtraItem(setup: Setup, none: map<string, SyncObject>, destination: map<string, SyncObject>, k: nat)
    requires none == map[] && setup.policy.deleteExtras && CanPlace(setup.to)
    requires k < |PlanItems(none, destination, Sync, setup.policy, setup.compare)|
    ensures var item := PlanItems(none, destination, Sync, setup.policy, setup.compare)[k];
            item.action == Delete && LowerErrorOf(setup.from, setup.to, item) == None
  {
    ItemAt(none, destination, Sync, setup.policy, setup.compare, k);
  }

  /** With nothing at the source and deletes on, the destination is planned to be emptied. */
  lemma {:induction false} EmptySourceDeletesAll(setup: Setup, destination: seq<SyncObject>)
    requires setup.mode == Sync && setup.policy.deleteExtras && CanPlace(setup.to)
    ensures var plan := PlanUnder(setup, [], destination);
            && plan.summary.deletes == |ByPath(destination)| && plan.summary.conflicts == 0
            && RunPlanFor(setup, plan).Some?
            && |RunPlanFor(setup, plan).value.deletes| == |ByPath(destination)|
            && RunPlanFor(setup, plan).value.transfers == []
  {
    var plan := PlanUnder(setup, [], destination);
    EmptySourceItems(setup, destination);
    CountsOfDeletes(plan.items);
    RunPlanIsLowered(setup.from, setup.to, plan.items);
    RunPlanAgreesWithSummary(setup.from, setup.to, plan, RunPlanFor(setup, plan).value);
  }

  lemma {:induction false} CountsOfDeletes(items: seq<PlanItem>)
    requires forall k :: 0 <= k < |items| ==> items[k].action == Delete
    ensures CountOf(items, Delete) == |items|
    ensures CountOf(items, Conflict) == CountOf(items, Create) == CountOf(items, Update) == 0
  {
    AllCounted(items, Delete);
    NoneCounted(items, Conflict);
    NoneCounted(items, Create);
    NoneCounted(items, Update);
  }

  lemma {:induction false} AllCounted(items: seq<PlanItem>, action: PlanAction)
    requires forall k :: 0 <= k < |items| ==> items[k].action == action
    ensures CountOf(items, action) == |items|
  {
    if items != [] {
      AllCounted(items[..|items| - 1], action);
    }
  }

  /** An edit between the two listings drops the source's, and the plan takes the source for empty: with
      deletes on it removes everything the destination lists, whatever the edits before and after, while the
      form goes on to show how many objects the source had. */
  lemma EditBetweenListingsDeletesAll(p: Planning)
    requires |p.source| + |p.destination| <= p.limit && p.second != []
    requires var setup := SetupAfter(p.start.setup, p.second);
             setup.mode == Sync && setup.policy.deleteExtras && CanPlace(setup.to)
    ensures BuildJob(p).Some? && BuildJob(p).value.Build?
    ensures var result := Result(p, BuildJob(p).value);
            && result.plan.Some? && result.plan.value.summary.deletes == |ByPath(p.destination)|
            && result.sourceScanned == |p.source|
            && (p.third == [] ==>
                  && result.runPlan.Some? && |result.runPlan.value.deletes| == |ByPath(p.destination)|
                  && result.runPlan.value.transfers == [])
  {
    ResultPlan(p);
    StagesOf(p);
    ResultSetup(p);
    EmptySourceDeletesAll(AtDestination(p).setup, p.destination);
    if p.third == [] {
      RunPlanOfResult(p, BuildJob(p).value);
    }
  }

  lemma PlanIsLowered(form: Form, plan: SyncPlan)
    ensures var next := Handle(form, PlanBuilt(Some(plan)));
            next.plan == Some(plan) && next.runPlan == RunPlanFor(form.setup, plan)
  {
  }

  /** The run plan a planning ends with. */
  lemma RunPlanOfResult(p: Planning, job: Job)
    requires job.Build?
    ensures var result := Result(p, job);
            result.plan.Some? && result.runPlan == RunPlanFor(AtResult(p).setup, result.plan.value)
  {
    PlanIsLowered(AtResult(p), PlanOfJob(job));
  }

  /** Filters edited while the source is being listed: the source was listed by the old ones, and the
      destination is listed by the new. */
  ghost predicate FiltersEdited(p: Planning, changed: Filters, objects: seq<SyncObject>) {
    && p.first == [Edit(p.start.setup.(filters := changed), p.start.maxDeleteCount, p.start.maxDeleteBytes)]
    && p.second == p.third == []
    && p.source == FilterListing(p.start.setup.filters.patterns, objects)
    && p.destination == FilterListing(changed.patterns, objects)
    && |p.source| + |p.destination| <= p.limit
  }

  /** Then the plan is not current, and even where both sides hold the very same objects it deletes every
      one that only the new patterns let through. */
  lemma {:induction false} StaleFilterDeletesShared(p: Planning, changed: Filters, objects: seq<SyncObject>,
                                                    path: string)
    requires FiltersEdited(p, changed, objects)
    requires p.start.setup.mode == Sync && p.start.setup.policy.deleteExtras
    requires path in ByPath(objects)
    requires !Passes(p.start.setup.filters.patterns, path) && Passes(changed.patterns, path)
    ensures BuildJob(p).Some? && BuildJob(p).value.Build? && !RestsOnCurrent(p, BuildJob(p).value)
    ensures var plan := Result(p, BuildJob(p).value).plan;
            plan.Some? && exists item :: item in plan.value.items && item.relativePath == path && item.action == Delete
  {
    PlanIsCurrentIff(p);
    SetupsOfFilterEdit(p, changed, objects);
    ResultPlan(p);
    FilterThenIndex(p.start.setup.filters.patterns, objects);
    FilterThenIndex(changed.patterns, objects);
    ExtraIsDeleted(p.start.setup.(filters := changed), p.source, p.destination, path);
  }

  lemma SetupsOfFilterEdit(p: Planning, changed: Filters, objects: seq<SyncObject>)
    requires FiltersEdited(p, changed, objects)
    ensures SetupAfter(p.start.setup, p.first) == p.start.setup.(filters := changed)
    ensures AtDestination(p).setup == p.start.setup.(filters := changed)
  {
    StagesOf(p);
  }

  /** The plan a planning ends with. */
  lemma ResultPlan(p: Planning)
    requires |p.source| + |p.destination| <= p.limit
    ensures BuildJob(p).Some? && BuildJob(p).value.Build?
    ensures Result(p, BuildJob(p).value).plan
            == Some(PlanUnder(AtDestination(p).setup, if p.second == [] then p.source else [], p.destination))
  {
    StagesOf(p);
  }

  lemma {:induction false} ExtraIsDeleted(setup: Setup, source: seq<SyncObject>, destination: seq<SyncObject>,
                                          path: string)
    requires setup.mode == Sync && setup.policy.deleteExtras
    requires path !in ByPath(source) && path in ByPath(destination)
    ensures exists item :: item in PlanUnder(setup, source, destination).items
                           && item.relativePath == path && item.action == Delete
  {
    var items := PlanUnder(setup, source, destination).items;
    PlanIsExact(ByPath(source), ByPath(destination), Sync, setup.policy, setup.compare);
    assert Covers(items, path);
    var k :| 0 <= k < |items| && items[k].relativePath == path;
    assert items[k] in items && items[k].action == Delete;
  }

  // ----- A result that comes late -----

  lemma Then(s: Session, event: Event, rest: seq<Event>, last: Session) returns (events: seq<Event>)
    requires Enabled(s, event) && Harmless(s.form, MessageOf(s, event))
    requires IsSession(Apply(s, event), rest, last) && AllHarmless(Apply(s, event), rest)
    ensures events == [event] + rest && IsSession(s, events, last) && AllHarmless(s, events)
  {
    events := [event] + rest;
    assert events[1..] == rest;
  }

  /** The session after the user has set the form up and the plan of an empty source and these objects is
      being compared. Jobs of an earlier form stay in flight. */
  function Comparing(s: Session, setup: Setup, objects: seq<SyncObject>): Session {
    Session(Form(setup, NoLimit, NoLimit, true, Some([]), None, None, None, None, 0, |objects|, false),
            s.jobs + [PlanJob(setup, [], objects)],
            s.reports + {Report(SourceJob(setup), []), Report(DestinationJob(setup), objects)})
  }

  /** From any form that is not planning, the user can get there. */
  lemma CompareFirst(s: Session, setup: Setup, objects: seq<SyncObject>, rest: seq<Event>, last: Session)
    returns (events: seq<Event>)
    requires !s.form.planning
    requires IsSession(Comparing(s, setup, objects), rest, last) && AllHarmless(Comparing(s, setup, objects), rest)
    ensures IsSession(s, events, last) && AllHarmless(s, events)
  {
    var k, limit := |s.jobs|, Some(|objects|);
    var edit, start := User(EditSettings(Edit(setup, NoLimit, NoLimit))), User(StartPlan(true));
    var listed, compared := Returned(k, Some([]), true, limit), Returned(k, Some(objects), true, limit);
    var edited := Apply(s, edit);
    assert edited.jobs == s.jobs;
    var started := Apply(edited, start);
    assert started.jobs == s.jobs + [SourceJob(setup)];
    assert Without(started.jobs, listed) == s.jobs;
    var sourced := Apply(started, listed);
    assert sourced.jobs == s.jobs + [DestinationJob(setup)];
    assert Without(sourced.jobs, compared) == s.jobs;
    assert Apply(sourced, compared).reports == Comparing(s, setup, objects).reports;
    assert Apply(sourced, compared) == Comparing(s, setup, objects);
    events := Then(sourced, compared, rest, last);
    events := Then(started, listed, events, last);
    events := Then(edited, start, events, last);
    events := Then(s, edit, events, last);
  }

  /** A form with a plan, before anything is confirmed. */
  ghost predicate HasPlan(form: Form, setup: Setup, plan: SyncPlan, run: RunPlan, destinationScanned: nat) {
    && form.setup == setup && form.maxDeleteCount == form.maxDeleteBytes == NoLimit
    && form.confirm == None && form.plan == Some(plan) && form.runPlan == Some(run)
    && form.sourceScanned == 0 && form.destinationScanned == destinationScanned
  }

  lemma ComparedPlans(s: Session, setup: Setup, objects: seq<SyncObject>, plan: SyncPlan, run: RunPlan)
    requires RunPlanFor(setup, plan) == Some(run)
    ensures HasPlan(Handle(Comparing(s, setup, objects).form, PlanBuilt(Some(plan))), setup, plan, run, |objects|)
  {
  }

  /** Asking for a run of one delete, the only object of the destination, asks for the number, and typing
      it in settles the question. */
  lemma OneDeleteAsked(form: Form, setup: Setup, plan: SyncPlan, run: RunPlan)
    requires HasPlan(form, setup, plan, run, 1) && setup.mode == Sync
    requires plan.summary.conflicts == 0 && |run.deletes| == 1
    ensures var text := "delete " + Decimal(1);
            var typed := Handle(Handle(form, StartSync), ConfirmTextChanged(text));
            typed.setup == setup && typed.confirm == Some(Confirm(1, run.totalDeleteBytes, true, text))
  {
    assert NeedsTyping(form, run) && WithinGuardrails(form, run);
  }

  /** Then a late plan of two deletes is what confirming starts. */
  lemma LateRunStarts(typed: Form, bytes: nat, plan: SyncPlan, run: RunPlan)
    requires typed.confirm == Some(Confirm(1, bytes, true, "delete " + Decimal(1)))
    requires RunPlanFor(typed.setup, plan) == Some(run) && |run.deletes| == 2
    ensures !Harmless(typed, PlanBuilt(Some(plan)))
    ensures Starts(Handle(typed, PlanBuilt(Some(plan))), ConfirmRun) == Some(Started(Sync, run))
  {
    ConfirmsItself(1);
  }

  /** The second comparison comes back, its run is asked for and its number typed. */
  lemma PlanAndConfirm(s: Session, setup: Setup, objects: seq<SyncObject>) returns (events: seq<Event>, last: Session)
    requires s.form.confirm == None && |s.jobs| == 2 && s.jobs[1] == PlanJob(setup, [], objects)
    ensures IsSession(s, events, last) && AllHarmless(s, events) && last.jobs == [s.jobs[0]]
    ensures last.form == Handle(Handle(Handle(s.form, PlanBuilt(Some(PlanUnder(setup, [], objects)))), StartSync),
                                ConfirmTextChanged("delete " + Decimal(1)))
  {
    var built, ask := Returned(1, None, true, None), User(StartSync);
    var typing := User(ConfirmTextChanged("delete " + Decimal(1)));
    var planned := Apply(s, built);
    assert Without(s.jobs, built) == [s.jobs[0]];
    var asked := Apply(planned, ask);
    last := Apply(asked, typing);
    events := Then(asked, typing, [], last);
    events := Then(planned, ask, events, last);
    events := Then(s, built, events, last);
  }

  lemma ConfirmOne(s: Session, setup: Setup, one: seq<SyncObject>)
    returns (events: seq<Event>, last: Session, bytes: nat)
    requires setup.mode == Sync && setup.policy.deleteExtras && setup.to.kind.S3Kind?
    requires |s.jobs| == 1 && |ByPath(one)| == |one| == 1
    ensures IsSession(Comparing(s, setup, one), events, last) && AllHarmless(Comparing(s, setup, one), events)
    ensures last.jobs == s.jobs
    ensures last.form.setup == setup && last.form.confirm == Some(Confirm(1, bytes, true, "delete " + Decimal(1)))
  {
    events, last := PlanAndConfirm(Comparing(s, setup, one), setup, one);
    EmptySourceDeletesAll(setup, one);
    var plan := PlanUnder(setup, [], one);
    var run := RunPlanFor(setup, plan).value;
    ComparedPlans(s, setup, one, plan, run);
    OneDeleteAsked(Handle(Comparing(s, setup, one).form, PlanBuilt(Some(plan))), setup, plan, run);
    bytes := run.totalDeleteBytes;
  }

  /** For instance: the form is reset while it compares, planned again and its one delete confirmed. The
      first comparison, of another destination, comes back in between, and confirming one delete starts a
      run of two. Everything that came back before was harmless, and this result is not. */
  lemma LateResultEscapesConfirmation(setup: Setup, x: SyncObject, y: SyncObject)
    returns (events: seq<Event>, last: Session, late: Event)
    requires setup.mode == Sync && setup.policy.deleteExtras && setup.to.kind.S3Kind?
    requires x.relativePath != y.relativePath
    ensures IsSession(NewSession(setup), events, last) && AllHarmless(NewSession(setup), events)
    ensures last.form.confirm.Some? && last.form.confirm.value.plannedDeletes == 1
    ensures late.Returned? && Enabled(last, late) && !Harmless(last.form, MessageOf(last, late))
    ensures var started := Starts(Apply(last, late).form, ConfirmRun);
            started.Some? && |started.value.runPlan.deletes| == 2
  {
    OneAndTwo(x, y);
    var first := NewSession(setup);
    var left, reset := Comparing(first, setup, [x, y]), User(OpenSync(setup));
    var reopened := Apply(left, reset);
    assert reopened.jobs == [PlanJob(setup, [], [x, y])];
    var bytes;
    events, last, bytes := ConfirmOne(reopened, setup, [x]);
    events := CompareFirst(reopened, setup, [x], events, last);
    events := Then(left, reset, events, last);
    events := CompareFirst(first, setup, [x, y], events, last);
    late := LateStarts(last, setup, bytes, [x, y]);
  }

  lemma LateStarts(s: Session, setup: Setup, bytes: nat, two: seq<SyncObject>) returns (late: Event)
    requires setup.mode == Sync && setup.policy.deleteExtras && setup.to.kind.S3Kind? && |ByPath(two)| == 2
    requires s.form.setup == setup && s.form.confirm == Some(Confirm(1, bytes, true, "delete " + Decimal(1)))
    requires s.jobs == [PlanJob(setup, [], two)]
    ensures late.Returned? && Enabled(s, late) && !Harmless(s.form, MessageOf(s, late))
    ensures var started := Starts(Apply(s, late).form, ConfirmRun);
            started.Some? && |started.value.runPlan.deletes| == 2
  {
    late := Returned(0, None, true, None);
    EmptySourceDeletesAll(setup, two);
    var plan := PlanUnder(setup, [], two);
    assert MessageOf(s, late) == PlanBuilt(Some(plan));
    LateRunStarts(s.form, bytes, plan, RunPlanFor(setup, plan).value);
  }

  lemma OneAndTwo(x: SyncObject, y: SyncObject)
    requires x.relativePath != y.relativePath
    ensures |ByPath([x])| == 1 && |ByPath([x, y])| == 2
  {
    assert [x][..0] == [] && [x, y][..1] == [x];
    assert ByPath([x]) == map[x.relativePath := x];
    assert ByPath([x, y]) == map[x.relativePath := x, y.relativePath := y];
  }
}
