/**
  The rule evaluator (`ReminderProcessor` in src/reminder.js): six ordered
  rule collections are checked against one reference day and every rule that
  fires contributes one message, collection by collection, in input order.

  Each `Process…` method follows the source's loop over its collection and is
  proved equal to a specification function built from the per-rule function
  `…Message`, which says whether one rule fires today and with which text.
 */
module Reminder {
  import opened Wrappers
  import opened Text
  import opened Calendar

  // ---------------------------------------------------------------------------
  // Rules and configuration
  // ---------------------------------------------------------------------------

  /** `enabled` is absent (`None`) or a boolean; `message` is absent or a string. */
  datatype Countdown = Countdown(name: string, targetDate: CalDate, message: Option<string>, enabled: Option<bool>)
  datatype YearlyTask = YearlyTask(name: string, message: Option<string>, month: int, day: int, enabled: Option<bool>)
  datatype MonthlyTask = MonthlyTask(name: string, message: Option<string>, day: int, enabled: Option<bool>)
  datatype WeeklyTask = WeeklyTask(name: string, message: Option<string>, dayOfWeek: seq<int>, enabled: Option<bool>)
  datatype SpecificWeekTask = SpecificWeekTask(name: string, message: Option<string>, dayOfWeek: int, week: int, enabled: Option<bool>)
  datatype LastWeekTask = LastWeekTask(name: string, message: Option<string>, dayOfWeek: int, enabled: Option<bool>)

  /** A collection field of the configuration object: not there at all, `null`, or an array. */
  datatype Collection<T> = Missing | Null | Items(items: seq<T>) {
    /** `collection || []`: a missing or null collection has no rules. */
    function Elements(): seq<T> {
      if Items? then items else []
    }
  }

  datatype Config = Config(
    countdowns: Collection<Countdown>,
    yearlyTasks: Collection<YearlyTask>,
    monthlyTasks: Collection<MonthlyTask>,
    weeklyTasks: Collection<WeeklyTask>,
    specificWeekTasks: Collection<SpecificWeekTask>,
    lastWeekTasks: Collection<LastWeekTask>)

  /** The guard `!enabled && enabled !== undefined` that skips a rule. */
  predicate Skipped(enabled: Option<bool>) {
    var truthy := enabled.Some? && enabled.value;
    !truthy && enabled != None
  }

  /** `message || fallback`: an absent or empty custom message gives way to the default text. */
  function MessageOr(message: Option<string>, fallback: string): string {
    if message.Some? && message.value != "" then message.value else fallback
  }

  const DaysPlaceholder: string := "{days}"

  // ---------------------------------------------------------------------------
  // One rule on one day
  // ---------------------------------------------------------------------------

  /** Whole days from the reference day to the countdown's target (negative once it has passed). */
  function CountdownDays(c: Countdown, today: Today): int {
    DayNumber(c.targetDate) - DayNumber(today.date)
  }

  /** The text a countdown shows `days` days before its target: nothing once the count is negative. */
  function CountdownText(c: Countdown, days: int): Option<string> {
    if days < 0 then None
    else if c.message.Some? && c.message.value != "" then
      Some(ReplaceAll(c.message.value, DaysPlaceholder, IntToString(days)))
    else if days == 0 then Some("本日が" + c.name + "です！")
    else Some(c.name + "まであと" + IntToString(days) + "日です")
  }

  /** A countdown counted from the Japan day of the run to the Japan day of its target. */
  function CountdownMessage(c: Countdown, today: Today): Option<string> {
    if Skipped(c.enabled) then None else CountdownText(c, CountdownDays(c, today))
  }

  /**
    The countdown as the code computes it on a host whose local time is UTC.
    The reference day is still the Japan day, but the target, built at
    midnight `+09:00`, is 15:00 UTC of the day before, and the local getters
    read that earlier day: the count comes out one day short.
   */
  function UtcHostCountdownMessage(c: Countdown, today: Today): Option<string> {
    if Skipped(c.enabled) then None else CountdownText(c, CountdownDays(c, today) - 1)
  }

  function YearlyMessage(task: YearlyTask, today: Today): Option<string> {
    if Skipped(task.enabled) then None
    else if today.date.month == task.month && today.date.day == task.day then
      Some(MessageOr(task.message, "今日は" + task.name + "です"))
    else None
  }

  /** `Math.min(task.day, lastDayOfMonth)`. */
  function MonthlyTargetDay(task: MonthlyTask, today: Today): int {
    if task.day < LastDayOfMonth(today) then task.day else LastDayOfMonth(today)
  }

  function MonthlyMessage(task: MonthlyTask, today: Today): Option<string> {
    if Skipped(task.enabled) then None
    else if today.date.day == MonthlyTargetDay(task, today) then
      Some(MessageOr(task.message, "今日は" + task.name + "の日です"))
    else None
  }

  function WeeklyMessage(task: WeeklyTask, today: Today): Option<string> {
    if Skipped(task.enabled) then None
    else if today.weekday in task.dayOfWeek then
      Some(MessageOr(task.message, "今日は" + task.name + "の日です"))
    else None
  }

  /**
    The day of the month a specific-week rule fires on: the first `dow` of the
    month moved on by `week - 1` weeks; when that lands in another month (the
    month alone is compared), the last `dow` of the month instead.
   */
  function SpecificWeekTargetDay(today: Today, dow: Weekday, week: int): int {
    var first := FirstOccurrenceDay(today, dow);
    var target := Normalize(today.date.year, today.date.month, first + (week - 1) * 7);
    if target.month != today.date.month then LastOccurrenceDay(today, dow) else target.day
  }

  function SpecificWeekMessage(task: SpecificWeekTask, today: Today): Option<string> {
    if Skipped(task.enabled) then None
    else if today.weekday != task.dayOfWeek then None
    else if today.date.day == SpecificWeekTargetDay(today, task.dayOfWeek, task.week) then
      Some(MessageOr(task.message, "今日は" + task.name + "の日です"))
    else None
  }

  function LastWeekMessage(task: LastWeekTask, today: Today): Option<string> {
    if Skipped(task.enabled) then None
    else if today.weekday != task.dayOfWeek then None
    else if today.date.day == LastOccurrenceDay(today, task.dayOfWeek) then
      Some(MessageOr(task.message, "今日は" + task.name + "の日です"))
    else None
  }

  // ---------------------------------------------------------------------------
  // A collection on one day
  // ---------------------------------------------------------------------------

  function Emitted(o: Option<string>): seq<string> {
    if o.Some? then [o.value] else []
  }

  /** The messages of the rules that fire, in rule order; at most one per rule. */
  function Fired<T>(tasks: seq<T>, fire: T -> Option<string>): (r: seq<string>)
    ensures |r| <= |tasks|
    decreases |tasks|
  {
    if tasks == [] then [] else Fired(tasks[..|tasks| - 1], fire) + Emitted(fire(tasks[|tasks| - 1]))
  }

  function CountdownReminders(tasks: seq<Countdown>, today: Today): seq<string> {
    Fired(tasks, c => CountdownMessage(c, today))
  }

  function YearlyReminders(tasks: seq<YearlyTask>, today: Today): seq<string> {
    Fired(tasks, t => YearlyMessage(t, today))
  }

  function MonthlyReminders(tasks: seq<MonthlyTask>, today: Today): seq<string> {
    Fired(tasks, t => MonthlyMessage(t, today))
  }

  function WeeklyReminders(tasks: seq<WeeklyTask>, today: Today): seq<string> {
    Fired(tasks, t => WeeklyMessage(t, today))
  }

  function SpecificWeekReminders(tasks: seq<SpecificWeekTask>, today: Today): seq<string> {
    Fired(tasks, t => SpecificWeekMessage(t, today))
  }

  function LastWeekReminders(tasks: seq<LastWeekTask>, today: Today): seq<string> {
    Fired(tasks, t => LastWeekMessage(t, today))
  }

  /** All six collections, in the fixed order countdown, yearly, monthly, weekly, specific-week, last-week. */
  function Evaluate(config: Config, today: Today): seq<string> {
    CountdownReminders(config.countdowns.Elements(), today)
    + YearlyReminders(config.yearlyTasks.Elements(), today)
    + MonthlyReminders(config.monthlyTasks.Elements(), today)
    + WeeklyReminders(config.weeklyTasks.Elements(), today)
    + SpecificWeekReminders(config.specificWeekTasks.Elements(), today)
    + LastWeekReminders(config.lastWeekTasks.Elements(), today)
  }

  function TwoDigits(n: nat): string {
    PadStart(NatToString(n), 2, '0')
  }

  /** `formatJSTDate`: the year as `String` renders it, then month and day padded to two digits. */
  function FormatDate(d: CalDate): string {
    IntToString(d.year) + "/" + TwoDigits(d.month) + "/" + TwoDigits(d.day)
  }

  // ---------------------------------------------------------------------------
  // The evaluator's loops
  // ---------------------------------------------------------------------------

  method ProcessCountdowns(countdowns: Collection<Countdown>, today: Today) returns (reminders: seq<string>)
    ensures reminders == CountdownReminders(countdowns.Elements(), today)
  {
    var tasks := countdowns.Elements();
    reminders := [];
    for i := 0 to |tasks|
      invariant reminders == CountdownReminders(tasks[..i], today)
    {
      var countdown := tasks[i];
      assert tasks[..i + 1][..i] == tasks[..i];
      if Skipped(countdown.enabled) {
        continue;
      }
      var diffDays := DayNumber(countdown.targetDate) - DayNumber(today.date);
      if diffDays >= 0 {
        var message: string;
        if countdown.message.Some? && countdown.message.value != "" {
          message := ReplaceAll(countdown.message.value, DaysPlaceholder, IntToString(diffDays));
        } else if diffDays == 0 {
          message := "本日が" + countdown.name + "です！";
        } else {
          message := countdown.name + "まであと" + IntToString(diffDays) + "日です";
        }
        reminders := reminders + [message];
      }
    }
    assert tasks[..|tasks|] == tasks;
  }

  method ProcessYearlyTasks(yearlyTasks: Collection<YearlyTask>, today: Today) returns (reminders: seq<string>)
    ensures reminders == YearlyReminders(yearlyTasks.Elements(), today)
  {
    var tasks := yearlyTasks.Elements();
    reminders := [];
    for i := 0 to |tasks|
      invariant reminders == YearlyReminders(tasks[..i], today)
    {
      var task := tasks[i];
      assert tasks[..i + 1][..i] == tasks[..i];
      if Skipped(task.enabled) {
        continue;
      }
      if today.date.month == task.month && today.date.day == task.day {
        reminders := reminders + [MessageOr(task.message, "今日は" + task.name + "です")];
      }
    }
    assert tasks[..|tasks|] == tasks;
  }

  method ProcessMonthlyTasks(monthlyTasks: Collection<MonthlyTask>, today: Today) returns (reminders: seq<string>)
    ensures reminders == MonthlyReminders(monthlyTasks.Elements(), today)
  {
    var tasks := monthlyTasks.Elements();
    reminders := [];
    for i := 0 to |tasks|
      invariant reminders == MonthlyReminders(tasks[..i], today)
    {
      var task := tasks[i];
      assert tasks[..i + 1][..i] == tasks[..i];
      if Skipped(task.enabled) {
        continue;
      }
      var lastDayOfMonth := DaysInMonth(today.date.year, today.date.month);
      var targetDay := if task.day < lastDayOfMonth then task.day else lastDayOfMonth;
      if today.date.day == targetDay {
        reminders := reminders + [MessageOr(task.message, "今日は" + task.name + "の日です")];
      }
    }
    assert tasks[..|tasks|] == tasks;
  }

  method ProcessWeeklyTasks(weeklyTasks: Collection<WeeklyTask>, today: Today) returns (reminders: seq<string>)
    ensures reminders == WeeklyReminders(weeklyTasks.Elements(), today)
  {
    var tasks := weeklyTasks.Elements();
    reminders := [];
    for i := 0 to |tasks|
      invariant reminders == WeeklyReminders(tasks[..i], today)
    {
      var task := tasks[i];
      assert tasks[..i + 1][..i] == tasks[..i];
      if Skipped(task.enabled) {
        continue;
      }
      if today.weekday in task.dayOfWeek {
        reminders := reminders + [MessageOr(task.message, "今日は" + task.name + "の日です")];
      }
    }
    assert tasks[..|tasks|] == tasks;
  }

  /** Walks forward from the first of the month to the first day falling on `dow`. */
  method FindFirstOccurrence(today: Today, dow: Weekday) returns (day: int)
    ensures day == FirstOccurrenceDay(today, dow)
  {
    day := 1;
    while WeekdayOf(today, day) != dow
      invariant 1 <= day <= FirstOccurrenceDay(today, dow)
      decreases FirstOccurrenceDay(today, dow) - day
    {
      day := day + 1;
    }
  }

  /** Walks back from the last day of the month to the last day falling on `dow`. */
  method FindLastOccurrence(today: Today, dow: Weekday) returns (day: int)
    ensures day == LastOccurrenceDay(today, dow)
  {
    day := DaysInMonth(today.date.year, today.date.month);
    while WeekdayOf(today, day) != dow
      invariant LastOccurrenceDay(today, dow) <= day <= LastDayOfMonth(today)
      decreases day - LastOccurrenceDay(today, dow)
    {
      day := day - 1;
    }
  }

  method ProcessSpecificWeekTasks(specificWeekTasks: Collection<SpecificWeekTask>, today: Today) returns (reminders: seq<string>)
    ensures reminders == SpecificWeekReminders(specificWeekTasks.Elements(), today)
  {
    var tasks := specificWeekTasks.Elements();
    reminders := [];
    for i := 0 to |tasks|
      invariant reminders == SpecificWeekReminders(tasks[..i], today)
    {
      var task := tasks[i];
      assert tasks[..i + 1][..i] == tasks[..i];
      if Skipped(task.enabled) {
        continue;
      }
      if today.weekday != task.dayOfWeek {
        continue;
      }
      var firstTargetDay := FindFirstOccurrence(today, task.dayOfWeek);
      var targetDate := Normalize(today.date.year, today.date.month, firstTargetDay + (task.week - 1) * 7);
      var targetDay := targetDate.day;
      if targetDate.month != today.date.month {
        targetDay := FindLastOccurrence(today, task.dayOfWeek);
      }
      if today.date.day == targetDay {
        reminders := reminders + [MessageOr(task.message, "今日は" + task.name + "の日です")];
      }
    }
    assert tasks[..|tasks|] == tasks;
  }

  method ProcessLastWeekTasks(lastWeekTasks: Collection<LastWeekTask>, today: Today) returns (reminders: seq<string>)
    ensures reminders == LastWeekReminders(lastWeekTasks.Elements(), today)
  {
    var tasks := lastWeekTasks.Elements();
    reminders := [];
    for i := 0 to |tasks|
      invariant reminders == LastWeekReminders(tasks[..i], today)
    {
      var task := tasks[i];
      assert tasks[..i + 1][..i] == tasks[..i];
      if Skipped(task.enabled) {
        continue;
      }
      if today.weekday != task.dayOfWeek {
        continue;
      }
      var lastDayOfMonth := FindLastOccurrence(today, task.dayOfWeek);
      if today.date.day == lastDayOfMonth {
        reminders := reminders + [MessageOr(task.message, "今日は" + task.name + "の日です")];
      }
    }
    assert tasks[..|tasks|] == tasks;
  }

  datatype Evaluation = Evaluation(date: string, reminders: seq<string>)

  /** `processReminders`, with the reference day passed in instead of read from the clock. */
  method ProcessReminders(config: Config, today: Today) returns (result: Evaluation)
    ensures result.date == FormatDate(today.date)
    ensures result.reminders == Evaluate(config, today)
  {
    var reminders: seq<string> := [];
    var countdowns := ProcessCountdowns(config.countdowns, today);
    reminders := reminders + countdowns;
    var yearly := ProcessYearlyTasks(config.yearlyTasks, today);
    reminders := reminders + yearly;
    var monthly := ProcessMonthlyTasks(config.monthlyTasks, today);
    reminders := reminders + monthly;
    var weekly := ProcessWeeklyTasks(config.weeklyTasks, today);
    reminders := reminders + weekly;
    var specificWeek := ProcessSpecificWeekTasks(config.specificWeekTasks, today);
    reminders := reminders + specificWeek;
    var lastWeek := ProcessLastWeekTasks(config.lastWeekTasks, today);
    reminders := reminders + lastWeek;
    EvaluateParts(config, today, countdowns, yearly, monthly, weekly, specificWeek, lastWeek);
    assert [] + countdowns == countdowns;
    result := Evaluation(FormatDate(today.date), reminders);
  }

  lemma EvaluateParts(config: Config, today: Today, c: seq<string>, y: seq<string>, m: seq<string>,
                      w: seq<string>, s: seq<string>, l: seq<string>)
    requires c == CountdownReminders(config.countdowns.Elements(), today)
    requires y == YearlyReminders(config.yearlyTasks.Elements(), today)
    requires m == MonthlyReminders(config.monthlyTasks.Elements(), today)
    requires w == WeeklyReminders(config.weeklyTasks.Elements(), today)
    requires s == SpecificWeekReminders(config.specificWeekTasks.Elements(), today)
    requires l == LastWeekReminders(config.lastWeekTasks.Elements(), today)
    ensures Evaluate(config, today) == c + y + m + w + s + l
  {
  }

  // ---------------------------------------------------------------------------
  // Properties
  // ---------------------------------------------------------------------------

  /** `enabled` acts in three states: only an explicit `false` skips a rule. */
  lemma SkippedOnlyWhenFalse(enabled: Option<bool>)
    ensures Skipped(enabled) <==> enabled == Some(false)
  {
  }

  /**
    For every rule kind, `enabled: false` silences the rule whatever its date,
    and an absent `enabled` behaves exactly like `enabled: true`.
   */
  lemma EnabledTriState(c: Countdown, y: YearlyTask, m: MonthlyTask, w: WeeklyTask,
                        s: SpecificWeekTask, l: LastWeekTask, today: Today)
    ensures CountdownMessage(c.(enabled := Some(false)), today) == None
    ensures YearlyMessage(y.(enabled := Some(false)), today) == None
    ensures MonthlyMessage(m.(enabled := Some(false)), today) == None
    ensures WeeklyMessage(w.(enabled := Some(false)), today) == None
    ensures SpecificWeekMessage(s.(enabled := Some(false)), today) == None
    ensures LastWeekMessage(l.(enabled := Some(false)), today) == None
    ensures CountdownMessage(c.(enabled := None), today) == CountdownMessage(c.(enabled := Some(true)), today)
    ensures YearlyMessage(y.(enabled := None), today) == YearlyMessage(y.(enabled := Some(true)), today)
    ensures MonthlyMessage(m.(enabled := None), today) == MonthlyMessage(m.(enabled := Some(true)), today)
    ensures WeeklyMessage(w.(enabled := None), today) == WeeklyMessage(w.(enabled := Some(true)), today)
    ensures SpecificWeekMessage(s.(enabled := None), today) == SpecificWeekMessage(s.(enabled := Some(true)), today)
    ensures LastWeekMessage(l.(enabled := None), today) == LastWeekMessage(l.(enabled := Some(true)), today)
  {
  }

  /** Concatenating two rule lists concatenates their messages, in the same order. */
  lemma {:induction false} FiredAppend<T>(a: seq<T>, b: seq<T>, fire: T -> Option<string>)
    ensures Fired(a + b, fire) == Fired(a, fire) + Fired(b, fire)
    decreases |b|
  {
    if b == [] {
      assert a + b == a;
    } else {
      var b' := b[..|b| - 1];
      assert (a + b)[..|a + b| - 1] == a + b';
      FiredAppend(a, b', fire);
    }
  }

  /** A message is produced exactly when some rule of the list fires with it. */
  lemma {:induction false} FiredMember<T>(tasks: seq<T>, fire: T -> Option<string>, x: string)
    ensures x in Fired(tasks, fire) <==> exists i :: 0 <= i < |tasks| && fire(tasks[i]) == Some(x)
    decreases |tasks|
  {
    if tasks != [] {
      var init := tasks[..|tasks| - 1];
      FiredMember(init, fire, x);
      if x in Fired(tasks, fire) {
        if x in Fired(init, fire) {
          var i :| 0 <= i < |init| && fire(init[i]) == Some(x);
          assert tasks[i] == init[i];
        } else {
          assert fire(tasks[|tasks| - 1]) == Some(x);
        }
      }
      if exists i :: 0 <= i < |tasks| && fire(tasks[i]) == Some(x) {
        var i :| 0 <= i < |tasks| && fire(tasks[i]) == Some(x);
        if i < |init| {
          assert init[i] == tasks[i];
        }
      }
    }
  }

  function RuleCount(config: Config): nat {
    |config.countdowns.Elements()| + |config.yearlyTasks.Elements()| + |config.monthlyTasks.Elements()|
    + |config.weeklyTasks.Elements()| + |config.specificWeekTasks.Elements()| + |config.lastWeekTasks.Elements()|
  }

  /** No rule produces more than one message per evaluation; missing collections produce none. */
  lemma EvaluateAtMostOnePerRule(config: Config, today: Today)
    ensures |Evaluate(config, today)| <= RuleCount(config)
  {
  }

  /** A countdown fires from any earlier day up to and including its target day, and never after it. */
  lemma CountdownFires(c: Countdown, today: Today)
    ensures CountdownMessage(c, today).Some? <==> c.enabled != Some(false) && !Before(c.targetDate, today.date)
  {
    DayNumberOrder(c.targetDate, today.date);
  }

  /** The day count is `k` exactly when the target lies `k` calendar days after the reference day. */
  lemma CountdownDaysCount(c: Countdown, today: Today, k: nat)
    ensures CountdownDays(c, today) == k <==> c.targetDate == AddDays(today.date, k)
  {
    DayDistance(today.date, c.targetDate, k);
  }

  /** Without a custom message: the target day itself, then every earlier day with its count. */
  lemma CountdownDefaultText(c: Countdown, today: Today, k: nat)
    requires c.enabled != Some(false) && MessageOr(c.message, "") == ""
    requires c.targetDate == AddDays(today.date, k)
    ensures k == 0 ==> CountdownMessage(c, today) == Some("本日が" + c.name + "です！")
    ensures k > 0 ==> CountdownMessage(c, today) == Some(c.name + "まであと" + IntToString(k) + "日です")
  {
    CountdownDaysCount(c, today, k);
  }

  /** The day before the target day counts one day. */
  lemma CountdownTomorrow(c: Countdown, today: Today)
    requires c.enabled != Some(false) && MessageOr(c.message, "") == ""
    requires c.targetDate == NextDay(today.date)
    ensures CountdownMessage(c, today) == Some(c.name + "まであと1日です")
  {
    assert AddDays(today.date, 1) == NextDay(today.date);
    CountdownDefaultText(c, today, 1);
    assert IntToString(1) == "1";
    assert "まであと" + "1" + "日です" == "まであと1日です";
    assert c.name + "まであと" + "1" + "日です" == c.name + ("まであと" + "1" + "日です");
  }

  /**
    A custom countdown message has every `{days}` replaced by the day count and
    nothing else changed.
   */
  lemma CountdownCustomText(c: Countdown, today: Today, parts: seq<string>)
    requires forall i :: 0 <= i < |parts| ==> !Occurs(DaysPlaceholder, parts[i])
    requires c.message == Some(JoinWith(parts, DaysPlaceholder)) && c.message.value != ""
    requires CountdownMessage(c, today).Some?
    ensures CountdownMessage(c, today) == Some(JoinWith(parts, IntToString(CountdownDays(c, today))))
  {
    var days := IntToString(CountdownDays(c, today));
    assert CountdownMessage(c, today) == Some(ReplaceAll(c.message.value, DaysPlaceholder, days));
    PlaceholderHeadUnique();
    ReplaceAllJoined(parts, DaysPlaceholder, days);
  }

  lemma PlaceholderHeadUnique()
    ensures HeadUnique(DaysPlaceholder)
  {
    assert DaysPlaceholder == ['{', 'd', 'a', 'y', 's', '}'];
  }

  /**
    On a UTC host the countdown is a day early: its target day passes in
    silence and the day before announces the target as today.
   */
  lemma UtcHostCountdownEarly(c: Countdown, today: Today)
    requires c.enabled != Some(false)
    ensures c.targetDate == today.date ==>
      UtcHostCountdownMessage(c, today) == None && CountdownMessage(c, today).Some?
    ensures c.targetDate == NextDay(today.date) && MessageOr(c.message, "") == "" ==>
      UtcHostCountdownMessage(c, today) == Some("本日が" + c.name + "です！")
  {
    NextDayNumber(today.date);
  }

  lemma YearlyFires(task: YearlyTask, today: Today)
    ensures YearlyMessage(task, today).Some? <==>
      task.enabled != Some(false) && today.date.month == task.month && today.date.day == task.day
  {
  }

  /**
    A monthly rule fires on its day, or on the last day of a month too short to
    have that day.
   */
  lemma MonthlyFires(task: MonthlyTask, today: Today)
    ensures MonthlyMessage(task, today).Some? <==>
      task.enabled != Some(false)
      && (today.date.day == task.day
          || (task.day > LastDayOfMonth(today) && today.date.day == LastDayOfMonth(today)))
  {
  }

  lemma WeeklyFires(task: WeeklyTask, today: Today)
    ensures WeeklyMessage(task, today).Some? <==> task.enabled != Some(false) && today.weekday in task.dayOfWeek
  {
  }

  /** Day `d` is the `n`-th day of the month falling on weekday `dow`. */
  predicate IsNthOccurrence(t: Today, dow: Weekday, n: int, d: int) {
    1 <= d <= LastDayOfMonth(t) && WeekdayOf(t, d) == dow && d - 7 * (n - 1) >= 1 && d - 7 * n < 1
  }

  /** Day `d` is the last day of the month falling on weekday `dow`. */
  predicate IsLastOccurrence(t: Today, dow: Weekday, d: int) {
    1 <= d <= LastDayOfMonth(t) && WeekdayOf(t, d) == dow && d + 7 > LastDayOfMonth(t)
  }

  lemma NthOccurrenceDay(t: Today, dow: Weekday, n: int, d: int)
    requires n >= 1
    ensures IsNthOccurrence(t, dow, n, d) <==>
      d == FirstOccurrenceDay(t, dow) + 7 * (n - 1) && d <= LastDayOfMonth(t)
  {
    var first := FirstOccurrenceDay(t, dow);
    SameWeekday(t, d, first);
    if IsNthOccurrence(t, dow, n, d) {
      var q := (d - first) / 7;
      assert d - first == 7 * q + (d - first) % 7;
      assert d - first == 7 * q;
      assert q == n - 1;
    }
    if d == first + 7 * (n - 1) {
      ModSeven(d - first, n - 1, 0);
    }
  }

  lemma LastOccurrenceDayIsLast(t: Today, dow: Weekday, d: int)
    ensures IsLastOccurrence(t, dow, d) <==> d == LastOccurrenceDay(t, dow)
  {
    SameWeekday(t, d, LastOccurrenceDay(t, dow));
  }

  /**
    A specific-week rule fires on the `week`-th occurrence of its weekday, or,
    in a month without one, on the last occurrence.
   */
  lemma SpecificWeekFires(task: SpecificWeekTask, today: Today)
    requires 1 <= task.week <= 5
    ensures SpecificWeekMessage(task, today).Some? <==>
      task.enabled != Some(false) && today.weekday == task.dayOfWeek
      && (IsNthOccurrence(today, task.dayOfWeek, task.week, today.date.day)
          || ((forall d :: !IsNthOccurrence(today, task.dayOfWeek, task.week, d))
              && IsLastOccurrence(today, task.dayOfWeek, today.date.day)))
  {
    if !Skipped(task.enabled) && today.weekday == task.dayOfWeek {
      var dow: Weekday := task.dayOfWeek;
      var target := FirstOccurrenceDay(today, dow) + 7 * (task.week - 1);
      NormalizeNearMonth(today.date.year, today.date.month, target);
      NthOccurrenceDay(today, dow, task.week, today.date.day);
      LastOccurrenceDayIsLast(today, dow, today.date.day);
      if target <= LastDayOfMonth(today) {
        NthOccurrenceDay(today, dow, task.week, target);
      } else {
        forall d ensures !IsNthOccurrence(today, dow, task.week, d) {
          NthOccurrenceDay(today, dow, task.week, d);
        }
      }
    }
  }

  /** A last-week rule fires exactly on the last occurrence of its weekday in the month. */
  lemma LastWeekFires(task: LastWeekTask, today: Today)
    ensures LastWeekMessage(task, today).Some? <==>
      task.enabled != Some(false) && today.weekday == task.dayOfWeek
      && IsLastOccurrence(today, task.dayOfWeek, today.date.day)
  {
    if !Skipped(task.enabled) && today.weekday == task.dayOfWeek {
      LastOccurrenceDayIsLast(today, task.dayOfWeek, today.date.day);
    }
  }

  /** Reads a `year/MM/DD` label back into its numbers. */
  function ParseDateLabel(s: string): Option<Date> {
    if |s| < 7 || s[|s| - 6] != '/' || s[|s| - 3] != '/' then None
    else
      match (ParseInt(s[..|s| - 6]), ParseNat(s[|s| - 5..|s| - 3]), ParseNat(s[|s| - 2..]))
      case (Some(y), Some(m), Some(d)) => Some(Date(y, m, d))
      case _ => None
  }

  lemma TwoDigitsRoundTrip(n: nat)
    requires n < 100
    ensures |TwoDigits(n)| == 2 && ParseNat(TwoDigits(n)) == Some(n)
  {
    var s := NatToString(n);
    if n < 10 {
      assert s == [DigitChar(n)];
      assert TwoDigits(n) == ['0', DigitChar(n)];
      var t := TwoDigits(n);
      assert t[..1] == ['0'] && t[..1][..0] == [];
      assert DigitsValue(t) == DigitsValue(['0']) * 10 + DigitValue(DigitChar(n));
    } else {
      assert NatToString(n / 10) == [DigitChar(n / 10)];
      assert |s| == 2;
      assert TwoDigits(n) == s;
      NatToStringRoundTrip(n);
    }
  }

  /** Where the separators of a `year/MM/DD` label sit, counted from its end. */
  lemma LabelLayout(y: string, m: string, dd: string)
    requires |y| >= 1 && |m| == 2 && |dd| == 2
    ensures var s := y + "/" + m + "/" + dd;
      |s| >= 7 && s[|s| - 6] == '/' && s[|s| - 3] == '/'
      && s[..|s| - 6] == y && s[|s| - 5..|s| - 3] == m && s[|s| - 2..] == dd
  {
    var s := y + "/" + m + "/" + dd;
    assert |s| == |y| + 6;
    assert s[..|s| - 6] == y;
    assert s[|s| - 5..|s| - 3] == m;
    assert s[|s| - 2..] == dd;
  }

  /** The date label determines the day: reading it back gives the year, month and day. */
  lemma FormatDateRoundTrip(d: CalDate)
    ensures ParseDateLabel(FormatDate(d)) == Some(d)
  {
    var y, m, dd := IntToString(d.year), TwoDigits(d.month), TwoDigits(d.day);
    var s := FormatDate(d);
    assert s == y + "/" + m + "/" + dd;
    TwoDigitsRoundTrip(d.month);
    TwoDigitsRoundTrip(d.day);
    IntToStringRoundTrip(d.year);
    LabelFields(y, m, dd, d.year, d.month, d.day);
  }

  lemma LabelFields(y: string, m: string, dd: string, year: int, month: nat, day: nat)
    requires ParseInt(y) == Some(year) && ParseNat(m) == Some(month) && ParseNat(dd) == Some(day)
    requires |m| == 2 && |dd| == 2
    ensures ParseDateLabel(y + "/" + m + "/" + dd) == Some(Date(year, month, day))
  {
    assert |y| >= 1;
    LabelLayout(y, m, dd);
  }
}
