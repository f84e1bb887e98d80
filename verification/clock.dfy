/**
 * The taskbar clock's time-zone choice: which zone is selected on mount (a
 * saved choice, else the browser's zone, else New York), how a choice is made
 * and remembered, and the label and abbreviation shown for the selection.
 * Formatting the time itself is left to the browser and not modelled.
 */
module Clock {
  import opened Wrappers

  datatype Timezone = Timezone(id: string, title: string)

  /** The zones offered in the selector, in display order. */
  const Timezones: seq<Timezone> := [
    Timezone("UTC", "UTC (Coordinated Universal Time)"),
    Timezone("Asia/Ho_Chi_Minh", "Ho Chi Minh (ICT)"),
    Timezone("Asia/Shanghai", "Shanghai (CST)"),
    Timezone("Asia/Chongqing", "Shanxi (CST)")]

  const DefaultTimezone := "America/New_York"

  /** `timezones.find(tz => tz.value === v)`: the first listed zone with that id. */
  function Find(zones: seq<Timezone>, v: string): (r: Option<Timezone>)
    ensures r.Some? ==> r.value in zones && r.value.id == v
    ensures forall k :: 0 <= k < |zones| && zones[k].id == v && (forall j :: 0 <= j < k ==> zones[j].id != v)
                        ==> r == Some(zones[k])
    ensures r.None? <==> forall i :: 0 <= i < |zones| ==> zones[i].id != v
    decreases |zones|
  {
    if |zones| == 0 then None
    else if zones[0].id == v then Some(zones[0])
    else Find(zones[1..], v)
  }

  /** The zone is one of the offered ones. */
  predicate Listed(v: string)
  {
    Find(Timezones, v).Some?
  }

  /** The offered ids, as a set. */
  lemma ListedZones(v: string)
    ensures Listed(v) <==> v in {"UTC", "Asia/Ho_Chi_Minh", "Asia/Shanghai", "Asia/Chongqing"}
  {
  }

  /** The browser's answer when asked for its time zone: a zone id, or an exception. */
  datatype Detection = Detected(zone: string) | DetectionFailed

  /**
   * The mount effect: a saved zone that is offered wins; otherwise the detected
   * zone, if it is offered; otherwise the default stays.
   */
  function InitialTimezone(saved: Option<string>, detected: Detection): (tz: string)
    ensures saved.Some? && Listed(saved.value) ==> tz == saved.value
    ensures !(saved.Some? && Listed(saved.value)) && detected.Detected? && Listed(detected.zone) ==> tz == detected.zone
    ensures tz == DefaultTimezone || Listed(tz)
    ensures tz != DefaultTimezone ==> (saved.Some? && tz == saved.value) || (detected.Detected? && tz == detected.zone)
  {
    if saved.Some? && saved.value != "" && Listed(saved.value) then saved.value
    else if detected.Detected? && Listed(detected.zone) then detected.zone
    else DefaultTimezone
  }

  /** The clock's own state. */
  datatype ClockState = ClockState(selected: string, showSelector: bool)

  function Mounted(saved: Option<string>, detected: Detection): (s: ClockState)
    ensures !s.showSelector && s.selected == InitialTimezone(saved, detected)
  {
    ClockState(InitialTimezone(saved, detected), false)
  }

  /** The clock button opens or closes the selector. */
  function ButtonClicked(s: ClockState): (r: ClockState)
    ensures r.showSelector == !s.showSelector && r.selected == s.selected
  {
    s.(showSelector := !s.showSelector)
  }

  /** Clicking the backdrop closes the selector. */
  function BackdropClicked(s: ClockState): (r: ClockState)
    ensures !r.showSelector && r.selected == s.selected
  {
    s.(showSelector := false)
  }

  /** Picking a zone selects it, closes the selector, and returns the value saved to storage. */
  function TimezoneChanged(s: ClockState, tz: string): (r: (ClockState, string))
    ensures r.0.selected == tz && !r.0.showSelector && r.1 == tz
  {
    (ClockState(tz, false), tz)
  }

  /** A zone picked from the selector is selected again on the next mount, whatever the browser reports. */
  lemma ChoiceSurvivesReload(s: ClockState, i: nat, detected: Detection)
    requires i < |Timezones|
    ensures var (after, stored) := TimezoneChanged(s, Timezones[i].id);
            Mounted(Some(stored), detected).selected == after.selected
  {
    assert Find(Timezones, Timezones[i].id).Some?;
  }

  /** The label on the button: the listed label, or the raw id for a zone that is not offered. */
  function Label(selected: string): (l: string)
    ensures Listed(selected) ==> l == Find(Timezones, selected).value.title
    ensures !Listed(selected) ==> l == selected
  {
    match Find(Timezones, selected)
    case Some(tz) => if tz.title != "" then tz.title else selected
    case None => selected
  }

  /**
   * The abbreviation under the time: fixed for the offered zones, otherwise the
   * one the browser's formatter reports (`None` when it reports none or throws,
   * which shows as the empty string).
   */
  function Abbreviation(tz: string, browserAbbreviation: Option<string>): (a: string)
    ensures tz == "UTC" ==> a == "UTC"
    ensures tz == "Asia/Ho_Chi_Minh" ==> a == "ICT"
    ensures tz == "Asia/Shanghai" || tz == "Asia/Chongqing" ==> a == "CST"
    ensures tz !in {"UTC", "Asia/Ho_Chi_Minh", "Asia/Shanghai", "Asia/Chongqing"} ==> a == browserAbbreviation.GetOr("")
  {
    if tz == "UTC" then "UTC"
    else if tz == "Asia/Ho_Chi_Minh" then "ICT"
    else if tz == "Asia/Shanghai" then "CST"
    else if tz == "Asia/Chongqing" then "CST"
    else browserAbbreviation.GetOr("")
  }

  /** For every offered zone the abbreviation does not depend on the browser, and it appears in the zone's label. */
  lemma ListedAbbreviationIsFixed(i: nat, b1: Option<string>, b2: Option<string>)
    requires i < |Timezones|
    ensures Abbreviation(Timezones[i].id, b1) == Abbreviation(Timezones[i].id, b2)
    ensures Abbreviation(Timezones[i].id, b1) <= Timezones[i].title
            || Abbreviation(Timezones[i].id, b1) == Timezones[i].title[|Timezones[i].title| - 4..|Timezones[i].title| - 1]
  {
  }
}
