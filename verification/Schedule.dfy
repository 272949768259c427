/** The `schedule = Cron(..)` spec: a colon-delimited string, written by the macro and split again by the SDK. */
module ScheduleSpec {
  import opened Wrappers

  datatype Cron = Cron(expression: string, timezone: string)

  const TAG := "cron:"

  function CronText(c: Cron): string { TAG + c.timezone + ":" + c.expression }

  /** The Cron arm of `parse_schedule_to_spec`: one or two arguments, the timezone defaulting to UTC. */
  function CronToSpec(expression: string, timezone: Option<string>): Result<string, ()> {
    var tz := if timezone.Some? then timezone.value else "UTC";
    if ':' in expression || ':' in tz then Err(()) else Ok(CronText(Cron(expression, tz)))
  }

  /** The text of a cron that is accepted, and which are refused. */
  lemma CronSpelled(expression: string, timezone: Option<string>)
    ensures CronToSpec(expression, timezone).Err? <==>
      ':' in expression || (timezone.Some? && ':' in timezone.value)
    ensures var r := CronToSpec(expression, timezone);
      r.Ok? ==> r.value == (if timezone.Some? then "cron:" + timezone.value + ":" + expression else "cron:UTC:" + expression)
  {
    assert "cron:" + "UTC" + ":" == "cron:UTC:";
  }

  /** `split_once(':')`. */
  function SplitOnce(s: string): Option<(string, string)> {
    if s == [] then None
    else if s[0] == ':' then Some(("", s[1..]))
    else
      var r := SplitOnce(s[1..]);
      if r.None? then None else Some(([s[0]] + r.value.0, r.value.1))
  }

  /** The cron half of `parse_schedule`. */
  function ParseCron(spec: string): Option<Cron> {
    if !(TAG <= spec) then None
    else
      var r := SplitOnce(spec[|TAG|..]);
      if r.None? then None else Some(Cron(r.value.1, r.value.0))
  }

  lemma {:induction false} SplitAtFirst(left: string, right: string)
    ensures var r := SplitOnce(left + ":" + right);
      && r.Some? && |r.value.0| <= |left|
      && (':' !in left ==> r == Some((left, right)))
      && (':' in left ==> |r.value.0| < |left|)
  {
    var s := left + ":" + right;
    if left == [] {
      assert s[1..] == right;
    } else {
      assert s[1..] == left[1..] + ":" + right;
      SplitAtFirst(left[1..], right);
      assert [left[0]] + left[1..] == left;
    }
  }

  /** A cron spec is read back exactly when its timezone holds no colon; a colon in the expression would do no harm. */
  lemma CronRoundTrip(c: Cron)
    ensures ParseCron(CronText(c)) == Some(c) <==> ':' !in c.timezone
  {
    assert CronText(c)[|TAG|..] == c.timezone + ":" + c.expression;
    SplitAtFirst(c.timezone, c.expression);
  }

  /** So whatever the macro accepts, the SDK schedules as written. */
  lemma AcceptedCronRoundTrip(expression: string, timezone: Option<string>)
    requires CronToSpec(expression, timezone).Ok?
    ensures ParseCron(CronToSpec(expression, timezone).value)
         == Some(Cron(expression, if timezone.Some? then timezone.value else "UTC"))
  {
    CronRoundTrip(Cron(expression, if timezone.Some? then timezone.value else "UTC"));
  }
}
