/**
 * The API usage record shared by js/main.js and js/openai-api.js: daily and
 * hourly counters reset when the day or the hour changes, the limit check
 * with its overrides, the counting of calls, and the two resets.  The
 * current day and hour are parameters; saving, display and notifications
 * are left out.
 */
module UsageTracking {
  import opened Base

  /** Why `checkUsageLimits` throws, with the limit it names. */
  datatype LimitOutcome = WithinLimits | DailyLimitReached(dailyLimit: int) | HourlyLimitReached(hourlyLimit: int)

  /** The limit test of `checkUsageLimits`: the daily limit first, then the
      hourly one, each skipped when overridden. */
  function LimitVerdict(daily: nat, hourly: nat, dailyOverride: bool, hourlyOverride: bool,
                        dailyLimit: int, hourlyLimit: int): (r: LimitOutcome)
    ensures r == WithinLimits <==>
      (dailyOverride || daily < dailyLimit) && (hourlyOverride || hourly < hourlyLimit)
    ensures r.DailyLimitReached? <==> !dailyOverride && daily >= dailyLimit
    ensures r.DailyLimitReached? ==> r.dailyLimit == dailyLimit
    ensures r.HourlyLimitReached? ==> r.hourlyLimit == hourlyLimit
  {
    if !dailyOverride && daily >= dailyLimit then DailyLimitReached(dailyLimit)
    else if !hourlyOverride && hourly >= hourlyLimit then HourlyLimitReached(hourlyLimit)
    else WithinLimits
  }

  /** The js/main.js version returns early when both overrides are set. */
  function MainLimitVerdict(daily: nat, hourly: nat, dailyOverride: bool, hourlyOverride: bool,
                            dailyLimit: int, hourlyLimit: int): LimitOutcome
  {
    if dailyOverride && hourlyOverride then WithinLimits
    else LimitVerdict(daily, hourly, dailyOverride, hourlyOverride, dailyLimit, hourlyLimit)
  }

  /** The early return changes nothing: both versions decide alike. */
  lemma MainLimitVerdictAgrees(daily: nat, hourly: nat, dailyOverride: bool, hourlyOverride: bool,
                               dailyLimit: int, hourlyLimit: int)
    ensures MainLimitVerdict(daily, hourly, dailyOverride, hourlyOverride, dailyLimit, hourlyLimit)
      == LimitVerdict(daily, hourly, dailyOverride, hourlyOverride, dailyLimit, hourlyLimit)
  {
  }

  /** A call let through without an override leaves the counter at most at
      its limit once counted. */
  lemma CountedCallStaysWithinLimit(daily: nat, hourly: nat, dailyLimit: int, hourlyLimit: int)
    requires LimitVerdict(daily, hourly, false, false, dailyLimit, hourlyLimit) == WithinLimits
    ensures daily + 1 <= dailyLimit && hourly + 1 <= hourlyLimit
  {
  }

  /** The usage record (`this.usage` / `factCheckSystem.usage`). */
  class Usage {
    var daily: nat
    var hourly: nat
    var lastDayReset: string
    var lastHourReset: int
    var totalCost: real
    var totalApiCalls: nat
    var totalDailyCalls: nat
    var totalHourlyCalls: nat
    var dailyLimitOverride: bool
    var hourlyLimitOverride: bool
    var overrideTimestamp: Option<string>

    /** The three cumulative counters move together, and the current
        counters never exceed them. */
    ghost predicate Valid()
      reads this
    {
      totalDailyCalls == totalApiCalls && totalHourlyCalls == totalApiCalls
      && daily <= totalApiCalls && hourly <= totalApiCalls
    }

    /** The record the constructors of js/main.js and
        js/fact-check-system.js start from. */
    constructor(today: string, currentHour: int)
      ensures Valid()
      ensures daily == 0 && hourly == 0 && totalCost == 0.0
      ensures totalApiCalls == 0 && totalDailyCalls == 0 && totalHourlyCalls == 0
      ensures lastDayReset == today && lastHourReset == currentHour
      ensures !dailyLimitOverride && !hourlyLimitOverride && overrideTimestamp.None?
    {
      daily := 0;
      hourly := 0;
      lastDayReset := today;
      lastHourReset := currentHour;
      totalCost := 0.0;
      totalApiCalls := 0;
      totalDailyCalls := 0;
      totalHourlyCalls := 0;
      dailyLimitOverride := false;
      hourlyLimitOverride := false;
      overrideTimestamp := None;
    }

    /** `updateUsageTracking()`: the daily counter restarts on a new day,
        the hourly one on a new hour; both reset marks are then current. */
    method UpdateUsageTracking(today: string, currentHour: int)
      requires Valid()
      modifies this
      ensures Valid()
      ensures daily == (if old(lastDayReset) != today then 0 else old(daily))
      ensures hourly == (if old(lastHourReset) != currentHour then 0 else old(hourly))
      ensures lastDayReset == today && lastHourReset == currentHour
      ensures totalCost == old(totalCost) && totalApiCalls == old(totalApiCalls)
      ensures totalDailyCalls == old(totalDailyCalls) && totalHourlyCalls == old(totalHourlyCalls)
      ensures dailyLimitOverride == old(dailyLimitOverride) && hourlyLimitOverride == old(hourlyLimitOverride)
      ensures overrideTimestamp == old(overrideTimestamp)
    {
      if lastDayReset != today {
        daily := 0;
        lastDayReset := today;
      }
      if lastHourReset != currentHour {
        hourly := 0;
        lastHourReset := currentHour;
      }
    }

    /** `checkUsageLimits()` of js/openai-api.js: the resets, then the limit
        test on the updated counters. */
    method CheckUsageLimits(today: string, currentHour: int, dailyLimit: int, hourlyLimit: int)
      returns (outcome: LimitOutcome)
      requires Valid()
      modifies this
      ensures Valid()
      ensures daily == (if old(lastDayReset) != today then 0 else old(daily))
      ensures hourly == (if old(lastHourReset) != currentHour then 0 else old(hourly))
      ensures lastDayReset == today && lastHourReset == currentHour
      ensures totalCost == old(totalCost) && totalApiCalls == old(totalApiCalls)
      ensures totalDailyCalls == old(totalDailyCalls) && totalHourlyCalls == old(totalHourlyCalls)
      ensures dailyLimitOverride == old(dailyLimitOverride) && hourlyLimitOverride == old(hourlyLimitOverride)
      ensures overrideTimestamp == old(overrideTimestamp)
      ensures outcome == LimitVerdict(daily, hourly, dailyLimitOverride, hourlyLimitOverride, dailyLimit, hourlyLimit)
    {
      if lastDayReset != today {
        daily := 0;
        lastDayReset := today;
      }
      if lastHourReset != currentHour {
        hourly := 0;
        lastHourReset := currentHour;
      }
      if !dailyLimitOverride && daily >= dailyLimit {
        return DailyLimitReached(dailyLimit);
      }
      if !hourlyLimitOverride && hourly >= hourlyLimit {
        return HourlyLimitReached(hourlyLimit);
      }
      return WithinLimits;
    }

    /** `checkUsageLimits()` of js/main.js: `updateUsageTracking`, an early
        return when both limits are overridden, then the limit test. */
    method CheckUsageLimitsTracked(today: string, currentHour: int, dailyLimit: int, hourlyLimit: int)
      returns (outcome: LimitOutcome)
      requires Valid()
      modifies this
      ensures Valid()
      ensures daily == (if old(lastDayReset) != today then 0 else old(daily))
      ensures hourly == (if old(lastHourReset) != currentHour then 0 else old(hourly))
      ensures lastDayReset == today && lastHourReset == currentHour
      ensures totalCost == old(totalCost) && totalApiCalls == old(totalApiCalls)
      ensures totalDailyCalls == old(totalDailyCalls) && totalHourlyCalls == old(totalHourlyCalls)
      ensures dailyLimitOverride == old(dailyLimitOverride) && hourlyLimitOverride == old(hourlyLimitOverride)
      ensures overrideTimestamp == old(overrideTimestamp)
      ensures outcome == LimitVerdict(daily, hourly, dailyLimitOverride, hourlyLimitOverride, dailyLimit, hourlyLimit)
    {
      UpdateUsageTracking(today, currentHour);
      if dailyLimitOverride && hourlyLimitOverride {
        return WithinLimits;
      }
      if !dailyLimitOverride && daily >= dailyLimit {
        return DailyLimitReached(dailyLimit);
      }
      if !hourlyLimitOverride && hourly >= hourlyLimit {
        return HourlyLimitReached(hourlyLimit);
      }
      return WithinLimits;
    }

    /** `updateUsageCount()`: every counter goes up by one. */
    method UpdateUsageCount()
      requires Valid()
      modifies this
      ensures Valid()
      ensures daily == old(daily) + 1 && hourly == old(hourly) + 1
      ensures totalApiCalls == old(totalApiCalls) + 1
      ensures totalDailyCalls == old(totalDailyCalls) + 1 && totalHourlyCalls == old(totalHourlyCalls) + 1
      ensures lastDayReset == old(lastDayReset) && lastHourReset == old(lastHourReset)
      ensures totalCost == old(totalCost)
      ensures dailyLimitOverride == old(dailyLimitOverride) && hourlyLimitOverride == old(hourlyLimitOverride)
      ensures overrideTimestamp == old(overrideTimestamp)
    {
      daily := daily + 1;
      hourly := hourly + 1;
      totalApiCalls := totalApiCalls + 1;
      totalDailyCalls := totalDailyCalls + 1;
      totalHourlyCalls := totalHourlyCalls + 1;
    }

    /** `overrideLimits()`: both overrides on, stamped with `now`; no counter
        changes. */
    method OverrideLimits(now: string)
      requires Valid()
      modifies this
      ensures Valid()
      ensures dailyLimitOverride && hourlyLimitOverride && overrideTimestamp == Some(now)
      ensures daily == old(daily) && hourly == old(hourly) && totalCost == old(totalCost)
      ensures totalApiCalls == old(totalApiCalls)
      ensures totalDailyCalls == old(totalDailyCalls) && totalHourlyCalls == old(totalHourlyCalls)
      ensures lastDayReset == old(lastDayReset) && lastHourReset == old(lastHourReset)
    {
      dailyLimitOverride := true;
      hourlyLimitOverride := true;
      overrideTimestamp := Some(now);
    }

    /** `restoreLimits()`: both overrides off, no stamp; no counter
        changes. */
    method RestoreLimits()
      requires Valid()
      modifies this
      ensures Valid()
      ensures !dailyLimitOverride && !hourlyLimitOverride && overrideTimestamp.None?
      ensures daily == old(daily) && hourly == old(hourly) && totalCost == old(totalCost)
      ensures totalApiCalls == old(totalApiCalls)
      ensures totalDailyCalls == old(totalDailyCalls) && totalHourlyCalls == old(totalHourlyCalls)
      ensures lastDayReset == old(lastDayReset) && lastHourReset == old(lastHourReset)
    {
      dailyLimitOverride := false;
      hourlyLimitOverride := false;
      overrideTimestamp := None;
    }

    /** `resetUsage()` of js/openai-api.js: once the user confirms, the
        current counters and the cost restart, while the cumulative totals
        and the overrides are kept; without confirmation nothing changes. */
    method ResetUsage(confirmed: bool, today: string, currentHour: int)
      requires Valid()
      modifies this
      ensures Valid()
      ensures !confirmed ==> unchanged(this)
      ensures confirmed ==> daily == 0 && hourly == 0 && totalCost == 0.0
      ensures confirmed ==> lastDayReset == today && lastHourReset == currentHour
      ensures totalApiCalls == old(totalApiCalls)
      ensures totalDailyCalls == old(totalDailyCalls) && totalHourlyCalls == old(totalHourlyCalls)
      ensures dailyLimitOverride == old(dailyLimitOverride) && hourlyLimitOverride == old(hourlyLimitOverride)
      ensures overrideTimestamp == old(overrideTimestamp)
    {
      if !confirmed {
        return;
      }
      daily := 0;
      hourly := 0;
      totalCost := 0.0;
      lastDayReset := today;
      lastHourReset := currentHour;
    }

    /** `resetUsage()` of js/main.js: once the user confirms, every counter,
        the cumulative totals included, restarts and the overrides are
        lifted, while the reset marks are kept; without confirmation nothing
        changes. */
    method ResetAllUsage(confirmed: bool)
      requires Valid()
      modifies this
      ensures Valid()
      ensures !confirmed ==> unchanged(this)
      ensures confirmed ==> daily == 0 && hourly == 0 && totalCost == 0.0
      ensures confirmed ==> totalApiCalls == 0 && totalDailyCalls == 0 && totalHourlyCalls == 0
      ensures confirmed ==> !dailyLimitOverride && !hourlyLimitOverride && overrideTimestamp.None?
      ensures lastDayReset == old(lastDayReset) && lastHourReset == old(lastHourReset)
    {
      if confirmed {
        daily := 0;
        hourly := 0;
        totalCost := 0.0;
        totalApiCalls := 0;
        totalDailyCalls := 0;
        totalHourlyCalls := 0;
        dailyLimitOverride := false;
        hourlyLimitOverride := false;
        overrideTimestamp := None;
      }
    }
  }

  /** The usage side of `callAPI` (js/openai-api.js:120-207) without
      overrides: the check, then a count only for a request that went
      through and succeeded.  A counter never passes its limit this way. */
  method CheckedCall(usage: Usage, today: string, currentHour: int, dailyLimit: int, hourlyLimit: int,
                     requestSucceeded: bool)
    returns (outcome: LimitOutcome)
    requires usage.Valid() && !usage.dailyLimitOverride && !usage.hourlyLimitOverride
    requires usage.daily <= dailyLimit && usage.hourly <= hourlyLimit
    modifies usage
    ensures usage.Valid()
    ensures usage.daily <= dailyLimit && usage.hourly <= hourlyLimit
    ensures outcome == WithinLimits && requestSucceeded ==> usage.totalApiCalls == old(usage.totalApiCalls) + 1
    ensures !(outcome == WithinLimits && requestSucceeded) ==> usage.totalApiCalls == old(usage.totalApiCalls)
  {
    outcome := usage.CheckUsageLimits(today, currentHour, dailyLimit, hourlyLimit);
    if outcome == WithinLimits && requestSucceeded {
      CountedCallStaysWithinLimit(usage.daily, usage.hourly, dailyLimit, hourlyLimit);
      usage.UpdateUsageCount();
    }
  }
}
