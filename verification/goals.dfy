/**
  Weekly spending goals: one goal per week start, upserted by `set`, and the
  goal/spent/remaining report of `status`. Amounts are integer cents.
 */
module Goals {
  import opened Outcomes
  import opened Calendar
  import opened Ledger

  /** A stored goal row: its id and its amount in cents. */
  datatype GoalRow = GoalRow(id: nat, cents: int)

  /** A goal as `set` returns it. */
  datatype Goal = Goal(id: nat, weekStart: Day, cents: int)

  /** The goals table, keyed by its unique week-start column, and the next value of its id sequence. */
  datatype GoalTable = GoalTable(byWeek: map<Day, GoalRow>, nextId: nat)

  /** What `status` answers, in cents. */
  datatype GoalStatus = GoalStatus(goal: int, spent: int, remaining: int)

  predicate ValidGoals(g: GoalTable)
  {
    forall d :: d in g.byWeek ==> g.byWeek[d].id < g.nextId
  }

  /**
    Sets the goal of the week containing `today`: inserts a row for that
    week start, or on conflict replaces the amount of the existing row.
   */
  function SetGoal(g: GoalTable, today: Day, cents: int): (r: Step<GoalTable, Goal>)
    requires ValidGoals(g)
    ensures ValidGoals(r.state)
    ensures r.reply.weekStart == WeekStart(today)
    ensures r.reply.cents == cents
    ensures r.state.byWeek.Keys == g.byWeek.Keys + {r.reply.weekStart}
    ensures r.state.byWeek[r.reply.weekStart] == GoalRow(r.reply.id, cents)
    ensures forall d :: d in g.byWeek && d != r.reply.weekStart ==> r.state.byWeek[d] == g.byWeek[d]
    ensures r.reply.weekStart in g.byWeek ==> r.reply.id == g.byWeek[r.reply.weekStart].id
    ensures r.reply.weekStart !in g.byWeek ==> forall d :: d in g.byWeek ==> g.byWeek[d].id != r.reply.id
  {
    var ws := WeekStart(today);
    if ws in g.byWeek then
      var id := g.byWeek[ws].id;
      Step(GoalTable(g.byWeek[ws := GoalRow(id, cents)], g.nextId), Goal(id, ws, cents))
    else
      Step(GoalTable(g.byWeek[ws := GoalRow(g.nextId, cents)], g.nextId + 1), Goal(g.nextId, ws, cents))
  }

  /** The goal stored for a week start; 0 when that week has none. */
  function GoalFor(g: GoalTable, weekStart: Day): (cents: int)
    ensures weekStart !in g.byWeek ==> cents == 0
  {
    if weekStart in g.byWeek then g.byWeek[weekStart].cents else 0
  }

  /** The transactions whose calendar day lies in `first..last`, both ends included. */
  function Window(m: map<Id, Txn>, first: Day, last: Day): (w: map<Id, Txn>)
    ensures forall id :: id in w <==> id in m && first <= DayOf(m[id].timestamp) <= last
    ensures forall id :: id in w ==> w[id] == m[id]
  {
    map id | id in m && first <= DayOf(m[id].timestamp) <= last :: m[id]
  }

  /**
    The report for the week containing `today`: the goal (0 if unset), the
    sum spent from its Monday through its Sunday (0 if nothing qualifies),
    and what remains, which goes negative when the goal is overspent.
   */
  function Status(g: GoalTable, t: Table, today: Day): (s: GoalStatus)
    ensures WeekStart(today) !in g.byWeek ==> s.goal == 0
    ensures WeekStart(today) in g.byWeek ==> s.goal == g.byWeek[WeekStart(today)].cents
    ensures s.spent == Total(Window(t.rows, WeekStart(today), WeekEnd(today)))
    ensures (forall id :: id in t.rows ==> DayOf(t.rows[id].timestamp) !in WeekDays(today)) ==> s.spent == 0
    ensures s.remaining == s.goal - s.spent
    ensures s.spent > s.goal ==> s.remaining < 0
  {
    var ws := WeekStart(today);
    var we := WeekEnd(today);
    var w := Window(t.rows, ws, we);
    assert (forall id :: id in t.rows ==> DayOf(t.rows[id].timestamp) !in WeekDays(today)) ==> w == map[];
    var spent := Total(w);
    var goal := GoalFor(g, ws);
    GoalStatus(goal, spent, goal - spent)
  }

  /** The seven days of the week containing `today`. */
  function WeekDays(today: Day): (days: set<Day>)
    ensures |days| == 7
    ensures forall d :: d in days <==> WeekStart(today) <= d <= WeekEnd(today)
  {
    var ws := WeekStart(today);
    {ws, ws + 1, ws + 2, ws + 3, ws + 4, ws + 5, ws + 6}
  }

  /** After `set`, the status of any day of the same week reports the new goal. */
  lemma StatusAfterSet(g: GoalTable, t: Table, today: Day, day: Day, cents: int)
    requires ValidGoals(g)
    requires day in WeekDays(today)
    ensures Status(SetGoal(g, today, cents).state, t, day).goal == cents
  {
    WeekStartConstantOnWeek(today, day);
  }

  /** `set` in one week leaves the goal of every other week as it was. */
  lemma StatusAfterSetOtherWeek(g: GoalTable, t: Table, today: Day, day: Day, cents: int)
    requires ValidGoals(g)
    requires WeekStart(day) != WeekStart(today)
    ensures Status(SetGoal(g, today, cents).state, t, day).goal == Status(g, t, day).goal
  {
  }

  /** Setting the goal twice in a week keeps one row, holding the later amount. */
  lemma SetGoalTwice(g: GoalTable, today: Day, day: Day, first: int, second: int)
    requires ValidGoals(g)
    requires WeekStart(day) == WeekStart(today)
    ensures var once := SetGoal(g, today, first);
            var twice := SetGoal(once.state, day, second);
            && twice.state.byWeek.Keys == once.state.byWeek.Keys
            && twice.reply.id == once.reply.id
            && GoalFor(twice.state, WeekStart(today)) == second
  {
  }

  /**
    A transaction added inside the window counts towards `spent`; one added
    outside leaves it unchanged.
   */
  lemma WindowTotalInsert(m: map<Id, Txn>, id: Id, txn: Txn, first: Day, last: Day)
    requires id !in m
    ensures first <= DayOf(txn.timestamp) <= last ==>
              Total(Window(m[id := txn], first, last)) == Total(Window(m, first, last)) + txn.cents
    ensures !(first <= DayOf(txn.timestamp) <= last) ==>
              Total(Window(m[id := txn], first, last)) == Total(Window(m, first, last))
  {
    var before := Window(m, first, last);
    var after := Window(m[id := txn], first, last);
    if first <= DayOf(txn.timestamp) <= last {
      assert after == before[id := txn];
      TotalInsert(before, id, txn);
    } else {
      assert after == before;
    }
  }

  /**
    Adding a transaction moves this week's `spent` by its amount exactly when
    its day lies between the week's Monday and Sunday, both included.
   */
  lemma SpentAfterAdd(g: GoalTable, t: Table, today: Day, description: string,
                                          cents: int, category: string, stamp: Instant, now: Instant)
    requires Valid(t)
    ensures var after := Status(g, Add(t, description, cents, category, Some(stamp), now).state, today);
            && (DayOf(stamp) in WeekDays(today) ==> after.spent == Status(g, t, today).spent + cents)
            && (DayOf(stamp) !in WeekDays(today) ==> after.spent == Status(g, t, today).spent)
  {
    var a := Add(t, description, cents, category, Some(stamp), now);
    assert a.state.rows == t.rows[a.reply.id := a.reply.txn];
    WindowTotalInsert(t.rows, a.reply.id, a.reply.txn, WeekStart(today), WeekEnd(today));
  }

  /** The week's first day is counted, the day before it is not; likewise its last day and the day after. */
  lemma WindowBoundaries(today: Day)
    ensures WeekStart(today) in WeekDays(today)
    ensures WeekStart(today) - 1 !in WeekDays(today)
    ensures WeekEnd(today) in WeekDays(today)
    ensures WeekEnd(today) + 1 !in WeekDays(today)
  {
  }

  /**
    A goal of 100.00 and a 40.00 purchase dated in the same week, on a table
    with nothing else, leave 60.00 remaining.
   */
  lemma GoalScenario(today: Day, stamp: Instant, now: Instant)
    requires DayOf(stamp) in WeekDays(today)
    ensures var goals := SetGoal(GoalTable(map[], 1), today, 10000).state;
            var table := Add(EmptyTable(), "Coffee", 4000, "Food", Some(stamp), now).state;
            Status(goals, table, today) == GoalStatus(10000, 4000, 6000)
  {
    var a := Add(EmptyTable(), "Coffee", 4000, "Food", Some(stamp), now);
    SpentAfterAdd(GoalTable(map[], 1), EmptyTable(), today, "Coffee", 4000, "Food", stamp, now);
    assert Window(EmptyTable().rows, WeekStart(today), WeekEnd(today)) == map[];
  }
}
