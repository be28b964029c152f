/**
 * `SettingsRepository`: the hour of the day at which the app's day rolls
 * over, kept under one key of the `settings` shared preferences.
 */
module SettingsRepository {
  import opened Wrappers
  import opened Text

  const PrefsName: string := "settings"
  const KeyResetHour: string := "reset_hour"
  const DefaultResetHour: int := 0

  /** The hours `setResetHour` accepts: `0..23`. */
  predicate IsHour(hour: int) {
    0 <= hour <= 23
  }

  /**
   * The companion `getResetHour(context)`: the stored hour, or the default
   * when the key was never written.
   */
  function ResetHourOf(prefs: map<string, int>): (hour: int)
    ensures KeyResetHour !in prefs ==> hour == DefaultResetHour
    ensures KeyResetHour in prefs ==> hour == prefs[KeyResetHour]
  {
    if KeyResetHour in prefs then prefs[KeyResetHour] else DefaultResetHour
  }

  /** Writing an hour makes it the one read back, whatever was stored before. */
  lemma WriteThenRead(prefs: map<string, int>, hour: int)
    ensures ResetHourOf(prefs[KeyResetHour := hour]) == hour
  {
  }

  /** The `require` message naming the refused hour in decimal. */
  function ResetHourMessage(hour: int): string {
    "Reset hour must be 0–23, got " + LongText(hour)
  }

  /** An instance over the app's preference file; other keys of the file are left alone. */
  class SettingsRepository {
    var prefs: map<string, int>

    /** Every hour the repository writes is a valid one. */
    predicate Valid()
      reads this
    {
      KeyResetHour in prefs ==> IsHour(prefs[KeyResetHour])
    }

    constructor(prefs: map<string, int>)
      requires KeyResetHour in prefs ==> IsHour(prefs[KeyResetHour])
      ensures Valid() && this.prefs == prefs
    {
      this.prefs := prefs;
    }

    /** `getResetHour()`: the same key and default as the companion accessor. */
    method GetResetHour() returns (hour: int)
      ensures hour == ResetHourOf(prefs)
      ensures Valid() ==> IsHour(hour)
    {
      hour := if KeyResetHour in prefs then prefs[KeyResetHour] else DefaultResetHour;
    }

    /**
     * `setResetHour(hour)`: an hour outside 0..23 is refused before anything
     * is written; any other is stored under `reset_hour`.
     */
    method SetResetHour(hour: int) returns (r: Result<(), string>)
      modifies this
      ensures old(Valid()) ==> Valid()
      ensures r.Success? <==> IsHour(hour)
      ensures r.Success? ==> prefs == old(prefs)[KeyResetHour := hour] && ResetHourOf(prefs) == hour
      ensures r.Failure? ==> prefs == old(prefs) && r.error == ResetHourMessage(hour)
    {
      if !IsHour(hour) {
        return Failure(ResetHourMessage(hour));
      }
      prefs := prefs[KeyResetHour := hour];
      r := Success(());
    }
  }

  /** A refused hour leaves a set hour in place; an accepted one replaces it. */
  method SetScenario() returns (first: int, afterRefused: int, afterAccepted: int)
    ensures first == 0 && afterRefused == 7 && afterAccepted == 23
  {
    var settings := new SettingsRepository(map[]);
    first := settings.GetResetHour();
    var _ := settings.SetResetHour(7);
    var _ := settings.SetResetHour(24);
    afterRefused := settings.GetResetHour();
    var _ := settings.SetResetHour(23);
    afterAccepted := settings.GetResetHour();
  }
}
