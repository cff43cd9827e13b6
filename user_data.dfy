/**
 * `src/util/user-data.util.ts`: reading, merging into and deleting the record stored under
 * `_userData/<userId>.json`.
 */
module UserDataUtil {
  import opened Wrappers
  import opened UserDataConstant
  import opened Storage

  /** The error `JSON.parse` throws on a body that is not a serialised record. */
  const ParseError: Error := Error("SyntaxError", "Unexpected token in JSON")

  /** The key of a user's record. */
  function UserDataKey(userId: string): (key: string)
    ensures key == UserDataPrefix + userId + ".json"
    ensures key[..|UserDataPrefix|] == UserDataPrefix
  {
    UserDataPrefix + userId + ".json"
  }

  /** Different users have different keys. */
  lemma UserDataKeyInjective(a: string, b: string)
    ensures UserDataKey(a) == UserDataKey(b) ==> a == b
  {
    if UserDataKey(a) == UserDataKey(b) {
      assert |a| == |b|;
      assert a == UserDataKey(a)[|UserDataPrefix|..|UserDataPrefix| + |a|];
      assert b == UserDataKey(b)[|UserDataPrefix|..|UserDataPrefix| + |b|];
    }
  }

  /** How `getUserData` turns the outcome of its `GetObjectCommand` into `[err, data]`. */
  function ReadOutcome(get: Result<Body, Error>): (r: Result<Option<UserData>, Error>)
    ensures r.Failure? ==> r.error.name != "NoSuchKey"
  {
    match get
    case Failure(e) => if e.name == "NoSuchKey" then Success(None) else Failure(e)
    case Success(Record(data)) => Success(Some(data))
    case Success(Text(_)) => Failure(ParseError)
  }

  /** What `getUserData` returns for the bucket's contents `objects`. */
  function StoredUserData(objects: map<string, Body>, userId: string, fault: Option<Error>): Result<Option<UserData>, Error>
  {
    ReadOutcome(GetResult(objects, UserDataKey(userId), fault))
  }

  /**
   * A record that is not there reads as no error and no data; a stored record reads as itself; the
   * only errors are the call's own and a body that does not parse.
   */
  lemma StoredUserDataCases(objects: map<string, Body>, userId: string, fault: Option<Error>)
    ensures var key := UserDataKey(userId);
      var r := StoredUserData(objects, userId, fault);
      (fault.None? && key !in objects ==> r == Success(None)) &&
      (fault.None? && key in objects && objects[key].Record? ==> r == Success(Some(objects[key].data))) &&
      (fault.None? && key in objects && objects[key].Text? ==> r == Failure(ParseError)) &&
      (fault.Some? ==> r == if fault.value.name == "NoSuchKey" then Success(None) else Failure(fault.value))
  {
  }

  /** `getUserData`. */
  method GetUserData(bucket: Bucket, userId: string, fault: Option<Error>) returns (r: Result<Option<UserData>, Error>)
    modifies bucket
    ensures r == StoredUserData(old(bucket.objects), userId, fault)
    ensures bucket.objects == old(bucket.objects)
    ensures bucket.requests == old(bucket.requests) + [GetObject(UserDataKey(userId))]
  {
    var get := bucket.Get(UserDataKey(userId), fault);
    if get.Failure? {
      if get.error.name == "NoSuchKey" {
        return Success(None);
      } else {
        return Failure(get.error);
      }
    }
    match get.value
    case Record(data) =>
      r := Success(Some(data));
    case Text(_) =>
      r := Failure(ParseError);
  }

  // ---------------------------------------------------------------------------------------
  // The merge

  /** A field of `{ ...a, ...b }`: `b`'s when `b` has it, else `a`'s. */
  function Override<T>(a: Option<T>, b: Option<T>): (r: Option<T>)
    ensures b.Some? ==> r == b
    ensures b.None? ==> r == a
  {
    if b.Some? then b else a
  }

  /** `{ ...(existingUserData || {}), ...newUserData, userId }`. */
  function MergeUserData(existing: Option<UserData>, patch: UserDataPatch, userId: string): UserData
  {
    var e := existing;
    UserData(
      userId,
      Override(if e.Some? then e.value.authToken else None, patch.authToken),
      Override(if e.Some? then e.value.timezoneName else None, patch.timezoneName),
      Override(if e.Some? then e.value.scheduleFromHour24 else None, patch.scheduleFromHour24),
      Override(if e.Some? then e.value.scheduleToHour24 else None, patch.scheduleToHour24))
  }

  /** The fields of `{ ...a, ...b }` for two patches. */
  function CombinePatches(a: UserDataPatch, b: UserDataPatch): UserDataPatch
  {
    UserDataPatch(
      Override(a.authToken, b.authToken), Override(a.timezoneName, b.timezoneName),
      Override(a.scheduleFromHour24, b.scheduleFromHour24), Override(a.scheduleToHour24, b.scheduleToHour24))
  }

  const EmptyPatch: UserDataPatch := UserDataPatch(None, None, None, None)

  /**
   * The merged record has the key's user id; each field is the new one when the patch has it and
   * otherwise the existing one, so fields the patch does not mention survive.
   */
  lemma MergeFields(existing: Option<UserData>, patch: UserDataPatch, userId: string)
    ensures var d := MergeUserData(existing, patch, userId);
      d.userId == userId &&
      (patch.authToken.Some? ==> d.authToken == patch.authToken) &&
      (patch.authToken.None? ==> d.authToken == if existing.Some? then existing.value.authToken else None) &&
      (patch.timezoneName.Some? ==> d.timezoneName == patch.timezoneName) &&
      (patch.timezoneName.None? ==> d.timezoneName == if existing.Some? then existing.value.timezoneName else None) &&
      (patch.scheduleFromHour24.Some? ==> d.scheduleFromHour24 == patch.scheduleFromHour24) &&
      (patch.scheduleFromHour24.None? ==> d.scheduleFromHour24 == if existing.Some? then existing.value.scheduleFromHour24 else None) &&
      (patch.scheduleToHour24.Some? ==> d.scheduleToHour24 == patch.scheduleToHour24) &&
      (patch.scheduleToHour24.None? ==> d.scheduleToHour24 == if existing.Some? then existing.value.scheduleToHour24 else None)
  {
  }

  /** With no existing record, the result is the user id and the patch's fields. */
  lemma MergeIntoNothing(patch: UserDataPatch, userId: string)
    ensures MergeUserData(None, patch, userId)
      == UserData(userId, patch.authToken, patch.timezoneName, patch.scheduleFromHour24, patch.scheduleToHour24)
  {
  }

  /** An empty patch leaves a record under its own id unchanged. */
  lemma MergeEmptyPatch(d: UserData)
    ensures MergeUserData(Some(d), EmptyPatch, d.userId) == d
  {
  }

  /** Merging one patch and then another is merging their combination. */
  lemma MergeTwice(existing: Option<UserData>, a: UserDataPatch, b: UserDataPatch, userId: string)
    ensures MergeUserData(Some(MergeUserData(existing, a, userId)), b, userId)
      == MergeUserData(existing, CombinePatches(a, b), userId)
  {
  }

  /** Merging the same patch again changes nothing. */
  lemma MergeIdempotent(existing: Option<UserData>, patch: UserDataPatch, userId: string)
    ensures MergeUserData(Some(MergeUserData(existing, patch, userId)), patch, userId)
      == MergeUserData(existing, patch, userId)
  {
    MergeTwice(existing, patch, patch, userId);
    assert CombinePatches(patch, patch) == patch;
  }

  // ---------------------------------------------------------------------------------------
  // Set and delete

  /** The bucket's contents after `setUserData`. */
  function ObjectsAfterSet(objects: map<string, Body>, userId: string, patch: UserDataPatch,
                           getFault: Option<Error>, putFault: Option<Error>): map<string, Body>
  {
    var read := StoredUserData(objects, userId, getFault);
    if read.Failure? && read.error.name != "NoSuchKey" then objects
    else if putFault.Some? then objects
    else objects[UserDataKey(userId) := Record(MergeUserData(if read.Success? then read.value else None, patch, userId))]
  }

  /** `setUserData`: read the existing record, then store it merged with `patch`. */
  method SetUserData(bucket: Bucket, userId: string, patch: UserDataPatch,
                     getFault: Option<Error>, putFault: Option<Error>) returns (err: Option<Error>)
    modifies bucket
    ensures var key := UserDataKey(userId);
      var read := StoredUserData(old(bucket.objects), userId, getFault);
      if read.Failure? then
        err == Some(read.error) && bucket.requests == old(bucket.requests) + [GetObject(key)]
      else
        err == putFault &&
        bucket.requests == old(bucket.requests) + [GetObject(key), PutObject(key, Record(MergeUserData(read.value, patch, userId)))]
    ensures bucket.objects == ObjectsAfterSet(old(bucket.objects), userId, patch, getFault, putFault)
  {
    var existing := GetUserData(bucket, userId, getFault);
    var existingUserData: Option<UserData> := None;
    if existing.Failure? {
      if existing.error.name == "NoSuchKey" {
      } else {
        return Some(existing.error);
      }
    } else {
      existingUserData := existing.value;
    }
    var record := MergeUserData(existingUserData, patch, userId);
    err := bucket.Put(UserDataKey(userId), Record(record), putFault);
  }

  /** A set that goes through is read back as the merge of the old record and the patch. */
  lemma SetThenGet(objects: map<string, Body>, userId: string, patch: UserDataPatch)
    requires StoredUserData(objects, userId, None).Success?
    ensures StoredUserData(ObjectsAfterSet(objects, userId, patch, None, None), userId, None)
      == Success(Some(MergeUserData(StoredUserData(objects, userId, None).value, patch, userId)))
  {
  }

  /** A set changes no key but the user's own, and a failed read or put changes nothing. */
  lemma SetTouchesOnlyItsKey(objects: map<string, Body>, userId: string, patch: UserDataPatch,
                             getFault: Option<Error>, putFault: Option<Error>, key: string)
    requires key != UserDataKey(userId)
    ensures var after := ObjectsAfterSet(objects, userId, patch, getFault, putFault);
      (key in after <==> key in objects) && (key in objects ==> after[key] == objects[key])
    ensures StoredUserData(objects, userId, getFault).Failure? || putFault.Some? ==>
      ObjectsAfterSet(objects, userId, patch, getFault, putFault) == objects
  {
  }

  /** The bucket's contents after `deleteUserData`. */
  function ObjectsAfterDelete(objects: map<string, Body>, userId: string,
                              getFault: Option<Error>, deleteFault: Option<Error>): map<string, Body>
  {
    var read := StoredUserData(objects, userId, getFault);
    if read.Failure? || read.value.None? || deleteFault.Some? then objects
    else objects - {UserDataKey(userId)}
  }

  /** `deleteUserData`: read the record and delete it only when there is one. */
  method DeleteUserData(bucket: Bucket, userId: string,
                        getFault: Option<Error>, deleteFault: Option<Error>) returns (err: Option<Error>)
    modifies bucket
    ensures var key := UserDataKey(userId);
      var read := StoredUserData(old(bucket.objects), userId, getFault);
      if read.Failure? then
        err == Some(read.error) && bucket.requests == old(bucket.requests) + [GetObject(key)]
      else if read.value.None? then
        err == None && bucket.requests == old(bucket.requests) + [GetObject(key)]
      else
        err == deleteFault && bucket.requests == old(bucket.requests) + [GetObject(key), DeleteObject(key)]
    ensures bucket.objects == ObjectsAfterDelete(old(bucket.objects), userId, getFault, deleteFault)
  {
    var existing := GetUserData(bucket, userId, getFault);
    var existingUserData: Option<UserData> := None;
    if existing.Failure? {
      if existing.error.name == "NoSuchKey" {
      } else {
        return Some(existing.error);
      }
    } else {
      existingUserData := existing.value;
    }
    if existingUserData.None? {
      return None;
    }
    err := bucket.Delete(UserDataKey(userId), deleteFault);
  }

  /**
   * Deleting an absent record changes nothing; deleting a present one leaves it absent and every
   * other key as it was.
   */
  lemma DeleteOutcome(objects: map<string, Body>, userId: string, key: string)
    ensures UserDataKey(userId) !in objects ==> ObjectsAfterDelete(objects, userId, None, None) == objects
    ensures StoredUserData(objects, userId, None).Success? ==>
      StoredUserData(ObjectsAfterDelete(objects, userId, None, None), userId, None) == Success(None)
    ensures key != UserDataKey(userId) ==>
      var after := ObjectsAfterDelete(objects, userId, None, None);
      (key in after <==> key in objects) && (key in objects ==> after[key] == objects[key])
  {
  }
}
