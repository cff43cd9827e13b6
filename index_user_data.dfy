/**
 * `src/functions/job/index-user-data.ts`: the job that brings a user's three boolean index
 * entries in line with the stored record.
 */
module IndexUserData {
  import opened Wrappers
  import opened JsText
  import opened UserDataConstant
  import opened Storage
  import opened UserDataUtil
  import opened UserIndexUtil

  /** `!!s && s.trim().length > 0`. */
  predicate NonBlankText(s: Option<string>)
  {
    s.Some? && |s.value| > 0 && |Trim(s.value)| > 0
  }

  /** `!!n && n >= 0`: a JSON number is truthy when it is not zero. */
  predicate TruthyNonNegative(n: Option<int>)
  {
    n.Some? && n.value != 0 && n.value >= 0
  }

  predicate HasAuth(d: UserData) { NonBlankText(d.authToken) }
  predicate HasTimezone(d: UserData) { NonBlankText(d.timezoneName) }
  predicate HasSchedule(d: UserData) { TruthyNonNegative(d.scheduleFromHour24) && TruthyNonNegative(d.scheduleToHour24) }

  /** The predicate each index is updated by. */
  predicate IndexHolds(name: IndexName, d: UserData)
  {
    match name
    case HasAuthIndex => HasAuth(d)
    case HasTimezoneIndex => HasTimezone(d)
    case HasScheduleIndex => HasSchedule(d)
  }

  /** The truthiness test is implied by the trim test: a text counts when it is there and not blank. */
  lemma NonBlankTextIff(s: Option<string>)
    ensures NonBlankText(s) <==> s.Some? && |Trim(s.value)| > 0
  {
    if s.Some? {
      TrimNoLonger(s.value);
    }
  }

  lemma TrimNoLonger(s: string)
    ensures |Trim(s)| <= |s|
  {
  }

  /**
   * The schedule index holds when both hours are there and positive: an hour 0 (midnight) counts
   * as missing, since 0 is falsy.
   */
  lemma HasScheduleIff(d: UserData)
    ensures HasSchedule(d) <==>
      d.scheduleFromHour24.Some? && d.scheduleFromHour24.value > 0 &&
      d.scheduleToHour24.Some? && d.scheduleToHour24.value > 0
    ensures d.scheduleFromHour24 == Some(0) || d.scheduleToHour24 == Some(0) ==> !HasSchedule(d)
  {
  }

  /** The request one update sends. */
  function IndexRequest(name: IndexName, userId: string, holds: bool): Request
  {
    if holds then PutObject(IndexKey(name, userId), Text(IndexBody(name, userId)))
    else DeleteObject(IndexKey(name, userId))
  }

  /** The bucket after one update: the entry added or removed, or left alone when the call fails. */
  function UpdatedIndex(objects: map<string, Body>, name: IndexName, userId: string, holds: bool, fault: Option<Error>): map<string, Body>
  {
    if fault.Some? then objects
    else if holds then AddedToIndex(objects, name, userId)
    else RemovedFromIndex(objects, name, userId)
  }

  /** `booleanIndexUpdater(...)(indexName, predicateFn)`, with the predicate's value. */
  method BooleanIndexUpdater(bucket: Bucket, userId: string, name: IndexName, holds: bool, fault: Option<Error>)
    returns (err: Option<Error>)
    modifies bucket
    ensures err == fault
    ensures bucket.objects == UpdatedIndex(old(bucket.objects), name, userId, holds, fault)
    ensures bucket.requests == old(bucket.requests) + [IndexRequest(name, userId, holds)]
  {
    if holds {
      err := AddUserIdToIndex(bucket, name, userId, fault);
    } else {
      err := RemoveUserIdFromIndex(bucket, name, userId, fault);
    }
  }

  /** The faults of the three index updates, in the order they are written. */
  datatype UpdateFaults = UpdateFaults(auth: Option<Error>, timezone: Option<Error>, schedule: Option<Error>)

  function FaultOf(faults: UpdateFaults, name: IndexName): Option<Error>
  {
    match name
    case HasAuthIndex => faults.auth
    case HasTimezoneIndex => faults.timezone
    case HasScheduleIndex => faults.schedule
  }

  /** The bucket after the three updates for the record `d`. */
  function IndexedObjects(objects: map<string, Body>, userId: string, d: UserData, faults: UpdateFaults): map<string, Body>
  {
    var a := UpdatedIndex(objects, HasAuthIndex, userId, HasAuth(d), faults.auth);
    var t := UpdatedIndex(a, HasTimezoneIndex, userId, HasTimezone(d), faults.timezone);
    UpdatedIndex(t, HasScheduleIndex, userId, HasSchedule(d), faults.schedule)
  }

  /** `handler`: read the record and, when there is one, update the three indexes. */
  method Handler(bucket: Bucket, userId: string, getFault: Option<Error>, faults: UpdateFaults)
    modifies bucket
    ensures var read := StoredUserData(old(bucket.objects), userId, getFault);
      if read.Success? && read.value.Some? then
        var d := read.value.value;
        bucket.objects == IndexedObjects(old(bucket.objects), userId, d, faults) &&
        bucket.requests == old(bucket.requests) + [GetObject(UserDataKey(userId)),
          IndexRequest(HasAuthIndex, userId, HasAuth(d)),
          IndexRequest(HasTimezoneIndex, userId, HasTimezone(d)),
          IndexRequest(HasScheduleIndex, userId, HasSchedule(d))]
      else
        bucket.objects == old(bucket.objects) &&
        bucket.requests == old(bucket.requests) + [GetObject(UserDataKey(userId))]
  {
    var read := GetUserData(bucket, userId, getFault);
    var userData: Option<UserData> := if read.Success? then read.value else None;
    if userData.Some? {
      UpdateIndexes(bucket, userId, userData.value, faults);
    }
  }

  /** The three `updateIndex` calls for the record `d`, in the order they are written. */
  method UpdateIndexes(bucket: Bucket, userId: string, d: UserData, faults: UpdateFaults)
    modifies bucket
    ensures bucket.objects == IndexedObjects(old(bucket.objects), userId, d, faults)
    ensures bucket.requests == old(bucket.requests) + [
      IndexRequest(HasAuthIndex, userId, HasAuth(d)),
      IndexRequest(HasTimezoneIndex, userId, HasTimezone(d)),
      IndexRequest(HasScheduleIndex, userId, HasSchedule(d))]
  {
    var _ := BooleanIndexUpdater(bucket, userId, HasAuthIndex, HasAuth(d), faults.auth);
    var _ := BooleanIndexUpdater(bucket, userId, HasTimezoneIndex, HasTimezone(d), faults.timezone);
    var _ := BooleanIndexUpdater(bucket, userId, HasScheduleIndex, HasSchedule(d), faults.schedule);
  }

  /**
   * The update for one index does not touch the entries of the other indexes, nor any other
   * user's.
   */
  lemma UpdatedIndexElsewhere(objects: map<string, Body>, name: IndexName, userId: string, holds: bool,
                              fault: Option<Error>, other: IndexName, otherId: string)
    requires (other, otherId) != (name, userId)
    ensures Indexed(UpdatedIndex(objects, name, userId, holds, fault), other, otherId) <==> Indexed(objects, other, otherId)
  {
    AddRemoveIndexed(objects, name, userId, other, otherId);
  }

  /** An update that goes through makes the entry match the predicate. */
  lemma UpdatedIndexHere(objects: map<string, Body>, name: IndexName, userId: string, holds: bool, fault: Option<Error>)
    ensures fault.None? ==> (Indexed(UpdatedIndex(objects, name, userId, holds, fault), name, userId) <==> holds)
    ensures fault.Some? ==> UpdatedIndex(objects, name, userId, holds, fault) == objects
  {
    AddRemoveIndexed(objects, name, userId, name, userId);
  }

  /**
   * After the job, each of the user's index entries whose update went through is there exactly
   * when its predicate holds for the record; one whose update failed is as it was. The three
   * are updated independently.
   */
  lemma IndexedObjectsEntries(objects: map<string, Body>, userId: string, d: UserData, faults: UpdateFaults, name: IndexName)
    ensures var after := IndexedObjects(objects, userId, d, faults);
      if FaultOf(faults, name).None? then (Indexed(after, name, userId) <==> IndexHolds(name, d))
      else (Indexed(after, name, userId) <==> Indexed(objects, name, userId))
  {
    var a := UpdatedIndex(objects, HasAuthIndex, userId, HasAuth(d), faults.auth);
    var t := UpdatedIndex(a, HasTimezoneIndex, userId, HasTimezone(d), faults.timezone);
    var s := UpdatedIndex(t, HasScheduleIndex, userId, HasSchedule(d), faults.schedule);
    UpdatedIndexHere(objects, HasAuthIndex, userId, HasAuth(d), faults.auth);
    UpdatedIndexHere(a, HasTimezoneIndex, userId, HasTimezone(d), faults.timezone);
    UpdatedIndexHere(t, HasScheduleIndex, userId, HasSchedule(d), faults.schedule);
    match name
    case HasAuthIndex =>
      UpdatedIndexElsewhere(a, HasTimezoneIndex, userId, HasTimezone(d), faults.timezone, name, userId);
      UpdatedIndexElsewhere(t, HasScheduleIndex, userId, HasSchedule(d), faults.schedule, name, userId);
    case HasTimezoneIndex =>
      UpdatedIndexElsewhere(objects, HasAuthIndex, userId, HasAuth(d), faults.auth, name, userId);
      UpdatedIndexElsewhere(t, HasScheduleIndex, userId, HasSchedule(d), faults.schedule, name, userId);
    case HasScheduleIndex =>
      UpdatedIndexElsewhere(objects, HasAuthIndex, userId, HasAuth(d), faults.auth, name, userId);
      UpdatedIndexElsewhere(a, HasTimezoneIndex, userId, HasTimezone(d), faults.timezone, name, userId);
  }

  /** Entries of other users, and every other index entry, are left as they were. */
  lemma IndexedObjectsElsewhere(objects: map<string, Body>, userId: string, d: UserData, faults: UpdateFaults,
                                name: IndexName, otherId: string)
    requires otherId != userId
    ensures Indexed(IndexedObjects(objects, userId, d, faults), name, otherId) <==> Indexed(objects, name, otherId)
  {
    var a := UpdatedIndex(objects, HasAuthIndex, userId, HasAuth(d), faults.auth);
    var t := UpdatedIndex(a, HasTimezoneIndex, userId, HasTimezone(d), faults.timezone);
    UpdatedIndexElsewhere(objects, HasAuthIndex, userId, HasAuth(d), faults.auth, name, otherId);
    UpdatedIndexElsewhere(a, HasTimezoneIndex, userId, HasTimezone(d), faults.timezone, name, otherId);
    UpdatedIndexElsewhere(t, HasScheduleIndex, userId, HasSchedule(d), faults.schedule, name, otherId);
  }
}
