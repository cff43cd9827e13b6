/**
 * `src/constant/user-data.constant.ts`: the key prefixes of the data bucket, the names of the
 * boolean indexes and the stored user-data record.
 */
module UserDataConstant {
  import opened Wrappers

  const IndexPrefix: string := "_index/"
  const UserDataPrefix: string := "_userData/"

  datatype IndexName = HasAuthIndex | HasTimezoneIndex | HasScheduleIndex

  /** The enum's string values. */
  function IndexNameText(name: IndexName): (s: string)
    ensures |s| > 0 && '/' !in s
  {
    match name
    case HasAuthIndex => "HAS_AUTH"
    case HasTimezoneIndex => "HAS_TIMEZONE"
    case HasScheduleIndex => "HAS_SCHEDULE"
  }

  /** The three names are spelled differently. */
  lemma IndexNameTextInjective(a: IndexName, b: IndexName)
    ensures IndexNameText(a) == IndexNameText(b) ==> a == b
  {
    if a != b {
      var x, y := IndexNameText(a), IndexNameText(b);
      assert x[4] != y[4] || |x| != |y|;
    }
  }

  /**
   * The record kept per user. Optional fields are `None` when absent; the schedule hours are
   * JSON numbers, taken here as integers.
   */
  datatype UserData = UserData(
    userId: string,
    authToken: Option<string>,
    timezoneName: Option<string>,
    scheduleFromHour24: Option<int>,
    scheduleToHour24: Option<int>)

  /** `Omit<Partial<UserData>, "userId">`: the fields a caller asks to set; `None` leaves one out. */
  datatype UserDataPatch = UserDataPatch(
    authToken: Option<string>,
    timezoneName: Option<string>,
    scheduleFromHour24: Option<int>,
    scheduleToHour24: Option<int>)
}
