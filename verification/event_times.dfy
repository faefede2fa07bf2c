/**
  Merger times of the known gravitational-wave events (get_event_time in
  tupak/gw/utils.py): a fixed table keyed by the six digits of the event
  date, looked up with the last six characters of the event descriptor, so
  that '150914', 'GW150914' and 'LVT151012' all resolve.
 */
module EventTimes {

  import opened Wrappers

  /** GPS merger times in seconds, by event date. */
  const Times: map<string, real> := map[
    "150914" := 1126259462.422,
    "151012" := 1128678900.4443,
    "151226" := 1135136350.65,
    "170104" := 1167559936.5991,
    "170608" := 1180922494.4902,
    "170814" := 1186741861.5268,
    "170817" := 1187008882.4457
  ]

  /** Python's s[-6:]: the last six characters, or all of a shorter string. */
  function LastSix(s: string): (r: string)
    ensures |r| == if |s| <= 6 then |s| else 6
    ensures s == s[..|s| - |r|] + r
  {
    if |s| <= 6 then s else s[|s| - 6..]
  }

  /** Python's `t in s` for strings: t occurs in s as a contiguous substring. */
  predicate Contains(s: string, t: string) {
    exists i :: 0 <= i <= |s| - |t| && OccursAt(s, t, i)
  }

  /** t occurs in s starting at index i. */
  predicate OccursAt(s: string, t: string, i: int) {
    0 <= i <= |s| - |t| && s[i..i + |t|] == t
  }

  /** Python's truth value of a string: true exactly when it is not empty. */
  predicate Truthy(s: string) {
    |s| > 0
  }

  /**
    The prefix test as written, `'GW' or 'LVT' in event`: Python reads it as
    `'GW' or ('LVT' in event)`, and the non-empty literal 'GW' makes it true.
   */
  predicate PrefixGuardAsWritten(event: string) {
    Truthy("GW") || Contains(event, "LVT")
  }

  /** The prefix test evidently intended: the descriptor mentions GW or LVT. */
  predicate PrefixGuard(event: string) {
    Contains(event, "GW") || Contains(event, "LVT")
  }

  /** The lookup after the prefix test: the table entry for the last six characters. */
  function Lookup(event: string): Option<real> {
    if LastSix(event) in Times then Some(Times[LastSix(event)]) else None
  }

  /** get_event_time as written: truncate, since the guard always holds, then look up. */
  function GetEventTimeAsWritten(event: string): Option<real> {
    var e := if PrefixGuardAsWritten(event) then LastSix(event) else event;
    Lookup(e)
  }

  /**
    get_event_time with the intended guard: truncate only a prefixed
    descriptor, then look up. A descriptor resolves exactly when it ends with a
    date of the table, and then to that date's time.
   */
  function GetEventTime(event: string): (r: Option<real>)
    ensures r.Some? <==> |event| >= 6 && event[|event| - 6..] in Times
    ensures r.Some? ==> r.value == Times[event[|event| - 6..]]
  {
    LastSixIdempotent(event);
    KeysHaveSixCharacters();
    var e := if PrefixGuard(event) then LastSix(event) else event;
    Lookup(e)
  }

  /** Every key of the table has six characters. */
  lemma KeysHaveSixCharacters()
    ensures forall key :: key in Times ==> |key| == 6
  {
  }

  /** The guard as written never fails, whatever the descriptor. */
  lemma PrefixGuardAsWrittenAlwaysHolds(event: string)
    ensures PrefixGuardAsWritten(event)
    ensures !Contains(event, "GW") && !Contains(event, "LVT") ==> PrefixGuardAsWritten(event) != PrefixGuard(event)
  {
  }

  /** Taking the last six characters twice is taking them once. */
  lemma LastSixIdempotent(s: string)
    ensures LastSix(LastSix(s)) == LastSix(s)
  {
  }

  /**
    The mistaken guard does not change the result: the lookup reads the last
    six characters again, so both versions return the same time.
   */
  lemma GetEventTimeAsWrittenAgrees(event: string)
    ensures GetEventTimeAsWritten(event) == GetEventTime(event)
  {
    LastSixIdempotent(event);
  }

  /** Any prefix in front of a known date is ignored. */
  lemma GetEventTimeIgnoresPrefix(prefix: string, key: string)
    requires key in Times
    ensures GetEventTime(prefix + key) == Some(Times[key])
  {
    KeysHaveSixCharacters();
    assert (prefix + key)[|prefix + key| - 6..] == key;
  }

  /** A descriptor shorter than six characters is unknown. */
  lemma GetEventTimeShortIsUnknown(event: string)
    requires |event| < 6
    ensures GetEventTime(event) == None
  {
  }

  /** Every date of the table resolves bare, after GW and after LVT. */
  lemma TableDatesResolve()
    ensures forall key :: key in Times ==>
      && GetEventTime(key) == Some(Times[key])
      && GetEventTime("GW" + key) == Some(Times[key])
      && GetEventTime("LVT" + key) == Some(Times[key])
  {
    forall key | key in Times
      ensures GetEventTime(key) == Some(Times[key])
      ensures GetEventTime("GW" + key) == Some(Times[key])
      ensures GetEventTime("LVT" + key) == Some(Times[key])
    {
      assert key == [] + key;
      GetEventTimeIgnoresPrefix([], key);
      GetEventTimeIgnoresPrefix("GW", key);
      GetEventTimeIgnoresPrefix("LVT", key);
    }
  }

  /** The documentation's example with the LVT prefix, 'LVT151012', resolves to the recorded time. */
  lemma DocumentedLvtExampleResolves()
    ensures GetEventTime("LVT151012") == Some(1128678900.4443)
  {
    assert "LVT151012" == "LVT" + "151012";
    GetEventTimeIgnoresPrefix("LVT", "151012");
  }
}
