/**
 * `src/view/schedule/handler.ts`: the interactivity handler of the schedule modal. It edits the
 * exception-date list carried in the view's metadata, reads the weekend checkboxes and asks
 * Slack to redraw the modal with the result.
 */
module ScheduleHandler {
  import opened Wrappers
  import opened JsText
  import opened Sequences
  import opened ArrayUtil
  import opened UserDataConstant
  import opened Storage

  /** The state values the handler looks at; every other kind of input is `OtherInput`. */
  datatype InputValue =
    | Checkboxes(selectedOptions: seq<string>)
    | DatePicker(selectedDate: string)
    | OtherInput(kind: string)

  /** A block action: its `type` and its `action_id` (the empty string when missing). */
  datatype Action = Action(kind: string, actionId: string)

  /**
   * The parts of the payload the handler reads. `blocks` is `Object.values(view.state.values)`,
   * in its order: one map from action id to value per block.
   */
  datatype Payload = Payload(
    kind: string,
    userId: string,
    viewId: string,
    blocks: seq<map<string, InputValue>>,
    actions: seq<Action>)

  /** What `modalView` is given. */
  datatype ModalState = ModalState(
    disableSaturdaySchedule: bool,
    showSaturdayTimePickers: bool,
    disableSundaySchedule: bool,
    showSundayTimePickers: bool,
    exceptionDates: seq<string>)

  /** The `views.update` request: the view, the bearer token and the modal drawn. */
  datatype ModalUpdate = ModalUpdate(viewId: string, authToken: string, state: ModalState)

  // ---------------------------------------------------------------------------------------
  // Inputs

  /** The `reduce` spreading every block's inputs into one map, later blocks winning. */
  function FlattenInputs(blocks: seq<map<string, InputValue>>): map<string, InputValue>
  {
    if blocks == [] then map[]
    else FlattenInputs(blocks[..|blocks| - 1]) + blocks[|blocks| - 1]
  }

  /** An action id is in the merged map exactly when some block has it. */
  lemma {:induction false} FlattenInputsDomain(blocks: seq<map<string, InputValue>>, id: string)
    ensures id in FlattenInputs(blocks) <==> exists j :: 0 <= j < |blocks| && id in blocks[j]
  {
    if blocks != [] {
      var init := blocks[..|blocks| - 1];
      FlattenInputsDomain(init, id);
      if exists j :: 0 <= j < |init| && id in init[j] {
        var j :| 0 <= j < |init| && id in init[j];
        assert id in blocks[j];
      }
      if exists j :: 0 <= j < |blocks| && id in blocks[j] {
        var j :| 0 <= j < |blocks| && id in blocks[j];
        if j < |init| {
          assert id in init[j];
        }
      }
    }
  }

  /** The merged value of an action id is the one in the last block that has it. */
  lemma {:induction false} FlattenInputsLast(blocks: seq<map<string, InputValue>>, id: string, j: nat)
    requires j < |blocks| && id in blocks[j]
    requires forall k :: j < k < |blocks| ==> id !in blocks[k]
    ensures id in FlattenInputs(blocks) && FlattenInputs(blocks)[id] == blocks[j][id]
  {
    var init := blocks[..|blocks| - 1];
    if j < |blocks| - 1 {
      assert id !in blocks[|blocks| - 1];
      FlattenInputsLast(init, id, j);
    }
  }

  /** `!!input.selected_options.find(({ value }) => value === option)` on a checkboxes input. */
  predicate Checked(inputs: map<string, InputValue>, inputId: string, option: string)
  {
    inputId in inputs && inputs[inputId].Checkboxes? && option in inputs[inputId].selectedOptions
  }

  // ---------------------------------------------------------------------------------------
  // Exception dates

  /** `^\d\d\d\d-\d\d-\d\d$`. */
  predicate IsDateString(s: string)
  {
    |s| == 10 && IsDigit(s[0]) && IsDigit(s[1]) && IsDigit(s[2]) && IsDigit(s[3]) && s[4] == '-'
    && IsDigit(s[5]) && IsDigit(s[6]) && s[7] == '-' && IsDigit(s[8]) && IsDigit(s[9])
  }

  const RemovePrefix: string := "remove-exception-date-"

  /** `^remove-exception-date-(\d\d\d\d-\d\d-\d\d)$`. */
  predicate IsRemoveActionId(id: string)
  {
    |id| >= |RemovePrefix| && id[..|RemovePrefix|] == RemovePrefix && IsDateString(id[|RemovePrefix|..])
  }

  /** The captured group of a matching remove action id. */
  function RemovedDate(id: string): string
    requires IsRemoveActionId(id)
  {
    id[|RemovePrefix|..]
  }

  /** The remove action's id, when the action id is that of the date's remove button. */
  lemma RemoveActionIdOf(date: string)
    requires IsDateString(date)
    ensures IsRemoveActionId(RemovePrefix + date) && RemovedDate(RemovePrefix + date) == date
  {
    assert (RemovePrefix + date)[..|RemovePrefix|] == RemovePrefix;
    assert (RemovePrefix + date)[|RemovePrefix|..] == date;
  }

  predicate IsAddClick(a: Action) { a.kind == "button" && a.actionId == "add-exception-date" }
  predicate IsRemoveClick(a: Action) { a.kind == "button" && IsRemoveActionId(a.actionId) }

  /** `!!payload.actions.find(...)` for the add button. */
  predicate AddClicked(actions: seq<Action>)
  {
    exists i :: 0 <= i < |actions| && IsAddClick(actions[i])
  }

  /** `payload.actions.find(...)` for a remove button: the first one. */
  function FirstRemoveClick(actions: seq<Action>): (r: Option<Action>)
    ensures r.Some? ==> r.value in actions && IsRemoveClick(r.value)
    ensures r.None? ==> forall i :: 0 <= i < |actions| ==> !IsRemoveClick(actions[i])
  {
    if actions == [] then None
    else if IsRemoveClick(actions[0]) then Some(actions[0])
    else FirstRemoveClick(actions[1..])
  }

  /** The new date the add button takes: a non-empty datepicker value in the date format. */
  function NewDate(inputs: map<string, InputValue>): Option<string>
  {
    if "new-exception-date" in inputs && inputs["new-exception-date"].DatePicker?
      && |inputs["new-exception-date"].selectedDate| > 0
      && IsDateString(inputs["new-exception-date"].selectedDate)
    then Some(inputs["new-exception-date"].selectedDate)
    else None
  }

  /** `exceptionDates.filter((exceptionDate) => exceptionDate !== dateString)`. */
  function RemoveAll(dates: seq<string>, date: string): seq<string>
  {
    if dates == [] then []
    else (if dates[0] == date then [] else [dates[0]]) + RemoveAll(dates[1..], date)
  }

  /** The filter keeps every other date, in order, and drops every occurrence of `date`. */
  lemma {:induction false} RemoveAllKeeps(dates: seq<string>, date: string, x: string)
    ensures x in RemoveAll(dates, date) <==> x in dates && x != date
    ensures IsSubsequence(RemoveAll(dates, date), dates)
  {
    if dates != [] {
      RemoveAllKeeps(dates[1..], date, x);
      var head: seq<string> := if dates[0] == date then [] else [dates[0]];
      assert RemoveAll(dates, date) == head + RemoveAll(dates[1..], date);
      if head == [] {
        assert RemoveAll(dates, date) == RemoveAll(dates[1..], date);
        SubsequenceOfTail(RemoveAll(dates, date), dates);
      } else {
        assert RemoveAll(dates, date)[1..] == RemoveAll(dates[1..], date);
      }
    }
  }

  /** Removing a date that is not there changes nothing. */
  lemma {:induction false} RemoveAllAbsent(dates: seq<string>, date: string)
    requires date !in dates
    ensures RemoveAll(dates, date) == dates
  {
    if dates != [] {
      RemoveAllAbsent(dates[1..], date);
      assert dates == [dates[0]] + dates[1..];
    }
  }

  /** The list after the add step and the remove step, before `arrayUnique`. */
  function EditedDates(dates: seq<string>, inputs: map<string, InputValue>, actions: seq<Action>): seq<string>
  {
    var added := if AddClicked(actions) && NewDate(inputs).Some? then dates + [NewDate(inputs).value] else dates;
    var remove := FirstRemoveClick(actions);
    if remove.Some? then RemoveAll(added, RemovedDate(remove.value.actionId)) else added
  }

  /** What the modal is redrawn with. */
  function ModalStateOf(payload: Payload, storedDates: Option<seq<string>>): ModalState
  {
    var inputs := FlattenInputs(payload.blocks);
    var dates := if storedDates.Some? then storedDates.value else [];
    ModalState(
      Checked(inputs, "saturday-schedule", "disable-saturday-schedule"),
      Checked(inputs, "saturday-schedule", "different-saturday-schedule"),
      Checked(inputs, "sunday-schedule", "disable-sunday-schedule"),
      Checked(inputs, "sunday-schedule", "different-sunday-schedule"),
      ArrayUnique(EditedDates(dates, inputs, payload.actions)))
  }

  /**
   * The only date the edit can bring in is the datepicker's, and only when the add button was
   * clicked and the value has the date format; every date it keeps was in the list or is that one.
   */
  lemma EditedDatesAdds(dates: seq<string>, inputs: map<string, InputValue>, actions: seq<Action>, x: string)
    requires x in EditedDates(dates, inputs, actions) && x !in dates
    ensures AddClicked(actions) && NewDate(inputs) == Some(x) && IsDateString(x)
  {
    var added := if AddClicked(actions) && NewDate(inputs).Some? then dates + [NewDate(inputs).value] else dates;
    var remove := FirstRemoveClick(actions);
    if remove.Some? {
      RemoveAllKeeps(added, RemovedDate(remove.value.actionId), x);
    }
  }

  /** With the add button and a valid date, and no remove button, the date is appended. */
  lemma EditedDatesAppends(dates: seq<string>, inputs: map<string, InputValue>, actions: seq<Action>, date: string)
    requires AddClicked(actions) && NewDate(inputs) == Some(date) && FirstRemoveClick(actions).None?
    ensures EditedDates(dates, inputs, actions) == dates + [date]
  {
  }

  /**
   * A remove button drops every occurrence of its date, including one added in the same
   * payload, and keeps the other dates in their order.
   */
  lemma EditedDatesRemoves(dates: seq<string>, inputs: map<string, InputValue>, actions: seq<Action>, x: string)
    requires FirstRemoveClick(actions).Some?
    ensures var date := RemovedDate(FirstRemoveClick(actions).value.actionId);
      var added := if AddClicked(actions) && NewDate(inputs).Some? then dates + [NewDate(inputs).value] else dates;
      date !in EditedDates(dates, inputs, actions) &&
      (x in EditedDates(dates, inputs, actions) <==> x in added && x != date) &&
      IsSubsequence(EditedDates(dates, inputs, actions), added)
  {
    var date := RemovedDate(FirstRemoveClick(actions).value.actionId);
    var added := if AddClicked(actions) && NewDate(inputs).Some? then dates + [NewDate(inputs).value] else dates;
    RemoveAllKeeps(added, date, x);
    RemoveAllKeeps(added, date, date);
  }

  /** The modal's dates hold no repeats and are the edited dates. */
  lemma ModalDates(payload: Payload, storedDates: Option<seq<string>>, x: string)
    ensures var inputs := FlattenInputs(payload.blocks);
      var dates := if storedDates.Some? then storedDates.value else [];
      var shown := ModalStateOf(payload, storedDates).exceptionDates;
      NoDuplicates(shown) && (x in shown <==> x in EditedDates(dates, inputs, payload.actions))
  {
    var inputs := FlattenInputs(payload.blocks);
    var dates := if storedDates.Some? then storedDates.value else [];
    ArrayUniqueNoDuplicates(EditedDates(dates, inputs, payload.actions));
    ArrayUniqueSameValues(EditedDates(dates, inputs, payload.actions), x);
  }

  /**
   * Each weekend flag is set exactly when its option is selected on the day's checkboxes, and is
   * off when that input is missing or of another kind.
   */
  lemma ModalFlags(payload: Payload, storedDates: Option<seq<string>>)
    ensures var inputs := FlattenInputs(payload.blocks);
      var s := ModalStateOf(payload, storedDates);
      (s.disableSaturdaySchedule <==>
        ("saturday-schedule" in inputs && inputs["saturday-schedule"].Checkboxes?
         && "disable-saturday-schedule" in inputs["saturday-schedule"].selectedOptions)) &&
      (s.showSaturdayTimePickers <==>
        ("saturday-schedule" in inputs && inputs["saturday-schedule"].Checkboxes?
         && "different-saturday-schedule" in inputs["saturday-schedule"].selectedOptions)) &&
      (s.disableSundaySchedule <==>
        ("sunday-schedule" in inputs && inputs["sunday-schedule"].Checkboxes?
         && "disable-sunday-schedule" in inputs["sunday-schedule"].selectedOptions)) &&
      (s.showSundayTimePickers <==>
        ("sunday-schedule" in inputs && inputs["sunday-schedule"].Checkboxes?
         && "different-sunday-schedule" in inputs["sunday-schedule"].selectedOptions))
  {
  }

  // ---------------------------------------------------------------------------------------
  // The handler

  /** `!userData.authToken` fails for a missing or empty token. */
  predicate Truthy(s: Option<string>) { s.Some? && |s.value| > 0 }

  /** The add and remove steps on the list from the metadata. */
  method EditExceptionDates(dates: seq<string>, allInputs: map<string, InputValue>, actions: seq<Action>)
    returns (exceptionDates: seq<string>)
    ensures exceptionDates == EditedDates(dates, allInputs, actions)
  {
    exceptionDates := dates;
    var addExceptionDateClicked := AddClicked(actions);
    if addExceptionDateClicked && "new-exception-date" in allInputs {
      var newExceptionDateInput := allInputs["new-exception-date"];
      if newExceptionDateInput.DatePicker? && |newExceptionDateInput.selectedDate| > 0
        && IsDateString(newExceptionDateInput.selectedDate)
      {
        exceptionDates := exceptionDates + [newExceptionDateInput.selectedDate];
      }
    }
    var removeExceptionDateAction := FirstRemoveClick(actions);
    if removeExceptionDateAction.Some? {
      var dateString := RemovedDate(removeExceptionDateAction.value.actionId);
      if |dateString| > 0 && IsDateString(dateString) {
        exceptionDates := RemoveAll(exceptionDates, dateString);
      }
    }
  }

  /** The two options of one day's checkboxes, both off unless that input is there. */
  method WeekendFlags(allInputs: map<string, InputValue>, inputId: string, disableOption: string,
                      differentOption: string)
    returns (disable: bool, different: bool)
    ensures disable == Checked(allInputs, inputId, disableOption)
    ensures different == Checked(allInputs, inputId, differentOption)
  {
    disable := false;
    different := false;
    if inputId in allInputs && allInputs[inputId].Checkboxes? {
      var options := allInputs[inputId].selectedOptions;
      disable := disableOption in options;
      different := differentOption in options;
    }
  }

  /**
   * `eventHandler`. `metadata` is the outcome of parsing `private_metadata` (its
   * `exceptionDates`, `None` when absent), `userData` that of `getUserData`, and `updateFault`
   * the error of the `views.update` call, if it fails. It returns the error the handler returns,
   * `None` for `null`, and the update it sends, if any.
   */
  method EventHandler(payload: Payload, metadata: Result<Option<seq<string>>, string>,
                      userData: Result<Option<UserData>, Storage.Error>, updateFault: Option<string>)
    returns (err: Option<string>, update: Option<ModalUpdate>)
    ensures payload.kind != "block_actions" ==> err == None && update == None
    ensures payload.kind == "block_actions" && metadata.Failure? ==>
      err == Some("Unable to parse private metadata: " + metadata.error) && update == None
    ensures payload.kind == "block_actions" && metadata.Success? ==>
      match userData
      case Failure(e) => err == Some("Unable to get user data: " + e.message) && update == None
      case Success(None) => err == Some("Missing get user data") && update == None
      case Success(Some(d)) =>
        if !Truthy(d.authToken) then
          err == Some("Missing get user authentication token") && update == None
        else
          update == Some(ModalUpdate(payload.viewId, d.authToken.value, ModalStateOf(payload, metadata.value))) &&
          err == if updateFault.Some? then Some("Error updating modal: " + updateFault.value) else None
  {
    if payload.kind != "block_actions" {
      return None, None;
    }
    if metadata.Failure? {
      return Some("Unable to parse private metadata: " + metadata.error), None;
    }
    var allInputs := FlattenInputs(payload.blocks);
    var exceptionDates := EditExceptionDates(if metadata.value.Some? then metadata.value.value else [],
      allInputs, payload.actions);
    var disableSaturdaySchedule, differentSaturdaySchedule := WeekendFlags(allInputs,
      "saturday-schedule", "disable-saturday-schedule", "different-saturday-schedule");
    var disableSundaySchedule, differentSundaySchedule := WeekendFlags(allInputs,
      "sunday-schedule", "disable-sunday-schedule", "different-sunday-schedule");

    if userData.Failure? {
      return Some("Unable to get user data: " + userData.error.message), None;
    }
    if userData.value.None? {
      return Some("Missing get user data"), None;
    }
    var record := userData.value.value;
    if !Truthy(record.authToken) {
      return Some("Missing get user authentication token"), None;
    }

    var state := ModalState(disableSaturdaySchedule, differentSaturdaySchedule,
      disableSundaySchedule, differentSundaySchedule, ArrayUnique(exceptionDates));
    assert state == ModalStateOf(payload, metadata.value);
    update := Some(ModalUpdate(payload.viewId, record.authToken.value, state));
    if updateFault.Some? {
      err := Some("Error updating modal: " + updateFault.value);
    } else {
      err := None;
    }
  }

}
