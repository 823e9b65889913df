/** Durations in the alert rules: Grafana's short spellings, and Go's (grafana/build_rules.py). */
module Duration {
  import Text
  import opened Decimal
  import opened Options

  /** go_duration: leading zero units are left out, trailing ones kept. */
  function GoDuration(seconds: nat): string {
    var hours, rest := seconds / 3600, seconds % 3600;
    var minutes, secs := rest / 60, rest % 60;
    if hours != 0 then PrintNat(hours) + "h" + (PrintNat(minutes) + "m" + (PrintNat(secs) + "s"))
    else if minutes != 0 then PrintNat(minutes) + "m" + (PrintNat(secs) + "s")
    else PrintNat(secs) + "s"
  }

  /** The text begins with a number and the unit. */
  predicate Begins(s: string, unit: char) {
    var n := DigitsLen(s);
    0 < n < |s| && s[n] == unit
  }

  function Value(s: string, unit: char): nat { if Begins(s, unit) then NatValue(s[..DigitsLen(s)]) else 0 }

  function Rest(s: string, unit: char): string { if Begins(s, unit) then s[DigitsLen(s) + 1..] else s }

  /** parse_duration: hours, minutes and seconds in that order, at least one of them. */
  function ParseDuration(text: string): Option<nat> {
    var t := Text.Trim(text);
    var m := Rest(t, 'h');
    var s := Rest(m, 'm');
    if Rest(s, 's') != "" || !(Begins(t, 'h') || Begins(m, 'm') || Begins(s, 's')) then None
    else Some(Value(t, 'h') * 3600 + Value(m, 'm') * 60 + Value(s, 's'))
  }

  /** A printed component is read as its number and unit, and not as another unit. */
  lemma Component(n: nat, unit: char, rest: string)
    requires !IsDigit(unit)
    ensures var t := PrintNat(n) + [unit] + rest;
      && Begins(t, unit) && Value(t, unit) == n && Rest(t, unit) == rest
      && forall other :: other != unit ==> !Begins(t, other) && Rest(t, other) == t && Value(t, other) == 0
  {
    PrintNatReads(n);
    var p, t := PrintNat(n), PrintNat(n) + [unit] + rest;
    assert t == p + ([unit] + rest);
    DigitsStop(p, [unit] + rest);
    assert t[..|p|] == p && t[|p| + 1..] == rest && t[|p|] == unit;
  }

  /** Printed seconds, minutes and hours are trimmed text. */
  lemma PrintedTrimmed(n: nat, middle: string)
    ensures Text.Trim(PrintNat(n) + middle + "s") == PrintNat(n) + middle + "s"
  {
    PrintNatReads(n);
    var t := PrintNat(n) + middle + "s";
    assert t[0] == PrintNat(n)[0] && t[|t| - 1] == 's';
    Text.TrimIdle(t);
  }

  lemma Joined(h: string, m: string, s: string)
    ensures h + "h" + (m + "m" + (s + "s")) == h + ("h" + (m + "m" + s)) + "s"
    ensures m + "m" + (s + "s") == m + ("m" + s) + "s"
    ensures s + "s" == s + "" + "s" == s + "s" + ""
  {}

  predicate Spelled(text: string, hours: nat, minutes: nat, secs: nat) {
    && (hours > 0 ==> text == PrintNat(hours) + "h" + (PrintNat(minutes) + "m" + (PrintNat(secs) + "s")))
    && (hours == 0 && minutes > 0 ==> text == PrintNat(minutes) + "m" + (PrintNat(secs) + "s"))
    && (hours == 0 && minutes == 0 ==> text == PrintNat(secs) + "s")
  }

  /** The spelling: leading units that are zero are left out, trailing ones are not. */
  lemma SpelledExactly(hours: nat, minutes: nat, secs: nat)
    requires minutes < 60 && secs < 60
    ensures Spelled(GoDuration(3600 * hours + 60 * minutes + secs), hours, minutes, secs)
  {
    hide Spelled, GoDuration;
    var seconds, rest := 3600 * hours + 60 * minutes + secs, 60 * minutes + secs;
    Hours(hours, rest);
    Minutes(minutes, secs);
    assert seconds == 3600 * hours + rest;
    PartsSpelled(seconds);
  }

  lemma PartsSpelled(seconds: nat)
    ensures Spelled(GoDuration(seconds), seconds / 3600, seconds % 3600 / 60, seconds % 3600 % 60)
  {
    hide PrintNat;
  }

  lemma Hours(hours: nat, rest: nat)
    requires rest < 3600
    ensures (3600 * hours + rest) / 3600 == hours && (3600 * hours + rest) % 3600 == rest
  {}

  lemma Minutes(minutes: nat, rest: nat)
    requires rest < 60
    ensures (60 * minutes + rest) / 60 == minutes && (60 * minutes + rest) % 60 == rest
  {}

  /** What a unit is written as, if it is there. */
  function Unit(n: Option<nat>, unit: char): string { if n.None? then "" else PrintNat(n.value) + [unit] }

  function Amount(n: Option<nat>): nat { if n.None? then 0 else n.value }

  /** Any of the units may be missing, but not all, and they add up. */
  lemma UnitsParsed(hours: Option<nat>, minutes: Option<nat>, secs: Option<nat>)
    ensures var text := Unit(hours, 'h') + (Unit(minutes, 'm') + Unit(secs, 's'));
      ParseDuration(text) ==
        if hours.None? && minutes.None? && secs.None? then None
        else Some(3600 * Amount(hours) + 60 * Amount(minutes) + Amount(secs))
  {
    hide DigitsLen, Begins, Value, Rest, Text.Trim;
    var s := Unit(secs, 's');
    var m := Unit(minutes, 'm') + s;
    var t := Unit(hours, 'h') + m;
    Nothing();
    OneUnit(secs, 's', "");
    assert s + "" == s;
    OneUnit(minutes, 'm', s);
    OneUnit(hours, 'h', m);
    UnitsTrimmed(hours, minutes, secs);
    hide Unit;
  }

  /** A unit that is there is read, and one that is not leaves the rest to the others. */
  lemma OneUnit(n: Option<nat>, unit: char, rest: string)
    requires !IsDigit(unit)
    ensures var t := Unit(n, unit) + rest;
      if n.None? then t == rest
      else
        && Begins(t, unit) && Value(t, unit) == n.value && Rest(t, unit) == rest
        && forall other :: other != unit ==> !Begins(t, other) && Rest(t, other) == t && Value(t, other) == 0
  {
    hide DigitsLen, Begins, Value, Rest;
    if n.Some? { Component(n.value, unit, rest); } else { assert Unit(n, unit) + rest == rest; }
  }

  lemma UnitsTrimmed(hours: Option<nat>, minutes: Option<nat>, secs: Option<nat>)
    ensures var text := Unit(hours, 'h') + (Unit(minutes, 'm') + Unit(secs, 's')); Text.Trim(text) == text
  {
    if hours.Some? { PrintNatReads(hours.value); }
    if minutes.Some? { PrintNatReads(minutes.value); }
    if secs.Some? { PrintNatReads(secs.value); }
    var text := Unit(hours, 'h') + (Unit(minutes, 'm') + Unit(secs, 's'));
    if text != "" {
      assert IsDigit(text[0]) && text[|text| - 1] in {'h', 'm', 's'};
      Text.TrimIdle(text);
    }
  }

  /** Anything that does not begin with a number, or ends in one, is refused. */
  lemma OthersRefused(text: string)
    requires text != "" && Text.Trimmed(text) && (!IsDigit(text[0]) || text[|text| - 1] !in {'h', 'm', 's'})
    ensures ParseDuration(text) == None
  {
    Text.TrimIdle(text);
    var m := Rest(text, 'h');
    var s := Rest(m, 'm');
    RestEnds(text, 'h');
    RestEnds(m, 'm');
    RestEnds(s, 's');
  }

  lemma RestEnds(s: string, unit: char)
    ensures !Begins(s, unit) ==> Rest(s, unit) == s
    ensures Begins(s, unit) ==> IsDigit(s[0]) && (Rest(s, unit) == "" ==> s[|s| - 1] == unit)
    ensures Rest(s, unit) != "" ==> s != "" && Rest(s, unit)[|Rest(s, unit)| - 1] == s[|s| - 1]
  {}

  /** The spelling the rules carry reads back as the number of seconds it stands for, so no
      two durations share a spelling. */
  lemma DurationRoundTrip(seconds: nat)
    ensures ParseDuration(GoDuration(seconds)) == Some(seconds)
  {
    hide DigitsLen, Begins, Value, Rest, Text.Trim;
    var hours, minutes, secs := seconds / 3600, seconds % 3600 / 60, seconds % 3600 % 60;
    var h, m, s := PrintNat(hours), PrintNat(minutes), PrintNat(secs);
    Joined(h, m, s);
    Component(secs, 's', "");
    Component(minutes, 'm', s + "s");
    Component(hours, 'h', m + "m" + (s + "s"));
    PrintedTrimmed(hours, "h" + (m + "m" + s));
    PrintedTrimmed(minutes, "m" + s);
    PrintedTrimmed(secs, "");
    Nothing();
  }

  lemma Nothing()
    ensures forall unit :: !Begins("", unit) && Rest("", unit) == "" && Value("", unit) == 0
  {}
}
