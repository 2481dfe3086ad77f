/**
 * The dashboard page's presentation rules: the colours of a task type's
 * badge, when the "Mark Complete" action is offered, and the count label.
 */
module TodayView {
  import opened Wrappers
  import opened TodayListing
  import CreateTask

  /** A badge's CSS colours; `None` is an undefined style property. */
  datatype BadgeColors = BadgeColors(background: Option<string>, text: Option<string>)

  const CallColors: BadgeColors := BadgeColors(Some("#dbeafe"), Some("#1e40af"))
  const EmailColors: BadgeColors := BadgeColors(Some("#fce7f3"), Some("#9f1239"))
  const ReviewColors: BadgeColors := BadgeColors(Some("#d1fae5"), Some("#065f46"))
  const FallbackColors: BadgeColors := BadgeColors(Some("#f3f4f6"), Some("#374151"))

  /**
   * Property names every plain JavaScript object inherits from
   * Object.prototype. Looking one of them up in the colour table yields a
   * truthy value that is not a colour pair, so the fallback is not taken and
   * both colours are undefined.
   */
  const InheritedKeys: set<string> := {
    "constructor", "hasOwnProperty", "isPrototypeOf", "propertyIsEnumerable",
    "toString", "toLocaleString", "valueOf", "__proto__",
    "__defineGetter__", "__defineSetter__", "__lookupGetter__", "__lookupSetter__"
  }

  /** The colours getTaskTypeBadge gives a task type. */
  function Badge(taskType: string): (c: BadgeColors)
    ensures taskType == "call" ==> c == CallColors
    ensures taskType == "email" ==> c == EmailColors
    ensures taskType == "review" ==> c == ReviewColors
    ensures taskType in InheritedKeys ==> c == BadgeColors(None, None)
    ensures taskType !in CreateTask.ValidTypes && taskType !in InheritedKeys ==> c == FallbackColors
  {
    if taskType == "call" then CallColors
    else if taskType == "email" then EmailColors
    else if taskType == "review" then ReviewColors
    else if taskType in InheritedKeys then BadgeColors(None, None)
    else FallbackColors
  }

  /**
   * Every type the create-task handler accepts has its own defined colour
   * pair, distinct from the other accepted types' and from the fallback.
   */
  lemma AcceptedTypesHaveOwnBadge(a: string, b: string)
    requires a in CreateTask.ValidTypes && b in CreateTask.ValidTypes
    ensures Badge(a).background.Some? && Badge(a).text.Some?
    ensures Badge(a) != FallbackColors
    ensures a != b ==> Badge(a) != Badge(b)
  {
  }

  /** The "Mark Complete" button is rendered only for tasks not yet completed. */
  predicate OffersCompletion(task: Task) {
    task.status != CompletedStatus
  }

  /** Every task the listing query returns is offered the "Mark Complete" action. */
  lemma ListedTasksOfferCompletion(table: seq<Task>, now: int, tz: int)
    ensures forall t :: t in DueToday(table, now, tz) ==> OffersCompletion(t)
  {
  }

  predicate IsDigits(s: string) {
    forall i :: 0 <= i < |s| ==> '0' <= s[i] <= '9'
  }

  function DigitChar(d: nat): (c: char)
    requires d < 10
    ensures '0' <= c <= '9' && (c - '0') as int == d
  {
    ['0', '1', '2', '3', '4', '5', '6', '7', '8', '9'][d]
  }

  /** A count as JavaScript writes a non-negative integer: decimal, no leading zero. */
  function Decimal(n: nat): (s: string)
    ensures |s| >= 1 && IsDigits(s)
    ensures s[0] == '0' <==> n == 0
  {
    if n < 10 then [DigitChar(n)] else Decimal(n / 10) + [DigitChar(n % 10)]
  }

  /** The number a string of decimal digits denotes. */
  function DecimalValue(s: string): nat
    requires IsDigits(s)
  {
    if s == [] then 0 else DecimalValue(s[..|s| - 1]) * 10 + (s[|s| - 1] - '0') as int
  }

  /** Reading the written count back gives the count. */
  lemma {:induction false} DecimalRoundTrip(n: nat)
    ensures DecimalValue(Decimal(n)) == n
  {
    var s := Decimal(n);
    if n < 10 {
      assert s[..|s| - 1] == [];
    } else {
      assert s[..|s| - 1] == Decimal(n / 10);
      DecimalRoundTrip(n / 10);
    }
  }

  function CountNoun(n: nat): string {
    if n == 1 then "task" else "tasks"
  }

  /** The header line: the number of listed tasks, then "task" for one and "tasks" otherwise. */
  function CountLabel(n: nat): (s: string)
    ensures s == Decimal(n) + " task due today" <==> n == 1
    ensures n != 1 ==> s == Decimal(n) + " tasks due today"
  {
    Decimal(n) + " " + CountNoun(n) + " due today"
  }
}
