/** `src/util/date.util.ts`: numbering of the days of the week. */
module DateUtil {
  import opened Wrappers
  import opened JsText

  datatype Weekday = Sunday | Monday | Tuesday | Wednesday | Thursday | Friday | Saturday

  /** `toWeekday(n)`: 0 is Sunday through 6 for Saturday; any other number throws. */
  function ToWeekday(weekday: int): (r: Result<Weekday, string>)
    ensures r.Success? <==> 0 <= weekday <= 6
  {
    if weekday == 0 then Success(Sunday)
    else if weekday == 1 then Success(Monday)
    else if weekday == 2 then Success(Tuesday)
    else if weekday == 3 then Success(Wednesday)
    else if weekday == 4 then Success(Thursday)
    else if weekday == 5 then Success(Friday)
    else if weekday == 6 then Success(Saturday)
    else Failure("Unknown weekday: " + IntToString(weekday))
  }

  /** The position of a day in the week, counting from Sunday as `Date#getDay` does. */
  function DayNumber(w: Weekday): (n: nat)
    ensures n <= 6
  {
    match w
    case Sunday => 0
    case Monday => 1
    case Tuesday => 2
    case Wednesday => 3
    case Thursday => 4
    case Friday => 5
    case Saturday => 6
  }

  /** Every day's number maps back to that day. */
  lemma ToWeekdayOfDayNumber(w: Weekday)
    ensures ToWeekday(DayNumber(w)) == Success(w)
  {
  }

  /** A number that `toWeekday` accepts is the number of the day it returns, so the mapping is injective. */
  lemma DayNumberOfToWeekday(n: int)
    requires ToWeekday(n).Success?
    ensures DayNumber(ToWeekday(n).value) == n
  {
  }

  lemma ToWeekdayInjective(m: int, n: int)
    requires ToWeekday(m).Success? && ToWeekday(n).Success?
    requires ToWeekday(m) == ToWeekday(n)
    ensures m == n
  {
    DayNumberOfToWeekday(m);
    DayNumberOfToWeekday(n);
  }

  /** Sunday is 0, Monday to Friday are 1 to 5 in order, and Saturday is 6; everything else throws. */
  lemma ToWeekdayTable(n: int)
    ensures n == 0 ==> ToWeekday(n) == Success(Sunday)
    ensures n == 1 ==> ToWeekday(n) == Success(Monday)
    ensures n == 5 ==> ToWeekday(n) == Success(Friday)
    ensures n == 6 ==> ToWeekday(n) == Success(Saturday)
    ensures (n < 0 || n > 6) ==> ToWeekday(n) == Failure("Unknown weekday: " + IntToString(n))
  {
  }
}
