/**
 * The two clock formats of the renderer. The clock itself is not modelled:
 * each reading is an input.
 *  - The folder-name default `YYYY-MM-DD_HH-MM-SS` built from local-time
 *    getters in getFolderName (renderer.js:880-883).
 *  - The file-name stamp of getTimestamp (renderer.js:769-771), a rewrite of
 *    the UTC ISO string `YYYY-MM-DDTHH:mm:ss.sssZ`.
 */
module Timestamps {
  import opened Strings

  /** A local clock reading as `getFullYear()`, `getMonth() + 1`, `getDate()`, ... report it. */
  datatype LocalTime = LocalTime(year: nat, month: nat, day: nat, hour: nat, minute: nat, second: nat)
  {
    predicate Valid()
    {
      year <= 275760 && 1 <= month <= 12 && 1 <= day <= 31
      && hour < 24 && minute < 60 && second < 60
    }
  }

  predicate IsStampChar(c: char) { IsDigit(c) || c == '-' || c == '_' }

  /**
   * The timestamp default of a folder name: the year as it is, every later
   * field padded to two digits.
   */
  function FolderTimestamp(t: LocalTime): (s: string)
    requires t.Valid()
    ensures |s| == |NatToString(t.year)| + 15
    ensures forall i :: 0 <= i < |s| ==> IsStampChar(s[i])
  {
    NatToString(t.year)
      + ClockFields(ZeroPad(t.month, 2), ZeroPad(t.day, 2), ZeroPad(t.hour, 2),
                    ZeroPad(t.minute, 2), ZeroPad(t.second, 2))
  }

  /** The fifteen characters after the year: `-MM-DD_HH-MM-SS`. */
  function ClockFields(month: string, day: string, hour: string, minute: string, second: string): string
  {
    "-" + month + "-" + day + "_" + hour + "-" + minute + "-" + second
  }

  /** Reads a folder timestamp back: the year, then six fixed-width fields. */
  function DecodeFolderTimestamp(s: string): Option<LocalTime>
  {
    if |s| < 16 then None
    else
      var year, rest := s[..|s| - 15], s[|s| - 15..];
      if AllDigits(year) && rest[0] == '-' && rest[3] == '-' && rest[6] == '_'
         && rest[9] == '-' && rest[12] == '-'
         && AllDigits(rest[1..3]) && AllDigits(rest[4..6]) && AllDigits(rest[7..9])
         && AllDigits(rest[10..12]) && AllDigits(rest[13..15])
      then
        Some(LocalTime(ParseNat(year), ParseNat(rest[1..3]), ParseNat(rest[4..6]),
                       ParseNat(rest[7..9]), ParseNat(rest[10..12]), ParseNat(rest[13..15])))
      else None
  }

  lemma ClockFieldsLayout(month: string, day: string, hour: string, minute: string, second: string)
    requires |month| == |day| == |hour| == |minute| == |second| == 2
    ensures var r := ClockFields(month, day, hour, minute, second);
      && |r| == 15 && r[0] == '-' && r[3] == '-' && r[6] == '_' && r[9] == '-' && r[12] == '-'
      && r[1..3] == month && r[4..6] == day && r[7..9] == hour
      && r[10..12] == minute && r[13..15] == second
  {
  }

  /** The folder timestamp loses nothing: it reads back as the clock reading it came from. */
  lemma FolderTimestampRoundTrip(t: LocalTime)
    requires t.Valid()
    ensures DecodeFolderTimestamp(FolderTimestamp(t)) == Some(t)
  {
    var y := NatToString(t.year);
    var mo, d, h, mi, se := ZeroPad(t.month, 2), ZeroPad(t.day, 2), ZeroPad(t.hour, 2),
                            ZeroPad(t.minute, 2), ZeroPad(t.second, 2);
    ZeroPadTwo(t.month); ZeroPadTwo(t.day); ZeroPadTwo(t.hour);
    ZeroPadTwo(t.minute); ZeroPadTwo(t.second);
    ParseNatToString(t.year);
    var rest := ClockFields(mo, d, h, mi, se);
    ClockFieldsLayout(mo, d, h, mi, se);
    var s := FolderTimestamp(t);
    assert s[..|s| - 15] == y && s[|s| - 15..] == rest;
    assert AllDigits(rest[1..3]) && AllDigits(rest[4..6]) && AllDigits(rest[7..9]);
    assert AllDigits(rest[10..12]) && AllDigits(rest[13..15]);
    assert DecodeFolderTimestamp(s)
        == Some(LocalTime(ParseNat(y), ParseNat(mo), ParseNat(d), ParseNat(h), ParseNat(mi), ParseNat(se)));
  }

  /** Different clock readings give different folder timestamps. */
  lemma FolderTimestampInjective(t: LocalTime, u: LocalTime)
    requires t.Valid() && u.Valid()
    requires FolderTimestamp(t) == FolderTimestamp(u)
    ensures t == u
  {
    FolderTimestampRoundTrip(t);
    FolderTimestampRoundTrip(u);
  }

  /** A UTC instant; `toISOString` writes years 0..9999 with four digits. */
  datatype UtcInstant = UtcInstant(year: nat, month: nat, day: nat, hour: nat, minute: nat,
                                   second: nat, millisecond: nat)
  {
    predicate Valid()
    {
      year <= 9999 && 1 <= month <= 12 && 1 <= day <= 31
      && hour < 24 && minute < 60 && second < 60 && millisecond < 1000
    }
  }

  /** `YYYY-MM-DD`, the date part shared by the ISO string and the stamp. */
  function IsoDate(t: UtcInstant): string
  {
    ZeroPad(t.year, 4) + "-" + ZeroPad(t.month, 2) + "-" + ZeroPad(t.day, 2)
  }

  /** `HH:mm:ss.sss`, the time part of the ISO string. */
  function IsoTime(t: UtcInstant): string
  {
    ZeroPad(t.hour, 2) + ":" + ZeroPad(t.minute, 2) + ":" + ZeroPad(t.second, 2)
      + "." + ZeroPad(t.millisecond, 3)
  }

  /** `date.toISOString()`: `YYYY-MM-DDTHH:mm:ss.sssZ`. */
  function IsoString(t: UtcInstant): string
    requires t.Valid()
  {
    IsoDate(t) + "T" + IsoTime(t) + "Z"
  }

  function DashFor(c: char): char
  {
    if c == ':' || c == '.' then '-' else c
  }

  /** `s.replace(/[:.]/g, '-')`. */
  function DashSeparators(s: string): (r: string)
    ensures |r| == |s| && forall i :: 0 <= i < |s| ==> r[i] == DashFor(s[i])
  {
    seq(|s|, i requires 0 <= i < |s| => DashFor(s[i]))
  }

  /** `s.replace('T', '_')`: a string pattern replaces its first occurrence only. */
  function ReplaceFirstT(s: string): (r: string)
    ensures |r| == |s|
    ensures forall i :: 0 <= i < |s| ==> r[i] == if i == IndexOf(s, 'T') then '_' else s[i]
  {
    var k := IndexOf(s, 'T');
    if k == |s| then s else s[k := '_']
  }

  /** `s.split('Z')[0]`: everything before the first 'Z'. */
  function BeforeFirstZ(s: string): (r: string)
    ensures |r| == IndexOf(s, 'Z') && r == s[..|r|]
  {
    s[..IndexOf(s, 'Z')]
  }

  /** IndexOf is the only index before which c does not occur and at which it does. */
  lemma IndexOfCharacterised(s: string, c: char, k: nat)
    requires k <= |s| && (k < |s| ==> s[k] == c)
    requires forall j :: 0 <= j < k ==> s[j] != c
    ensures IndexOf(s, c) == k
  {
  }

  /**
   * getTimestamp (renderer.js:770) as a rewrite of the ISO string it is given:
   * ':' and '.' become '-', the first 'T' becomes '_', and the text is cut at
   * the first 'Z'.
   */
  function FileTimestamp(iso: string): (r: string)
    ensures |r| == IndexOf(iso, 'Z')
    ensures forall i :: 0 <= i < |r| ==>
              r[i] == if i == IndexOf(iso, 'T') then '_' else DashFor(iso[i])
    ensures forall i :: 0 <= i < |r| ==> r[i] != ':' && r[i] != '.' && r[i] != 'Z'
    ensures forall i :: 0 <= i < |r| && i <= IndexOf(iso, 'T') ==> r[i] != 'T'
  {
    var dashed := DashSeparators(iso);
    IndexOfCharacterised(dashed, 'T', IndexOf(iso, 'T'));
    var replaced := ReplaceFirstT(dashed);
    IndexOfCharacterised(replaced, 'Z', IndexOf(iso, 'Z'));
    BeforeFirstZ(replaced)
  }

  lemma DashSeparatorsConcat(a: string, b: string)
    ensures DashSeparators(a + b) == DashSeparators(a) + DashSeparators(b)
  {
  }

  lemma DashSeparatorsDigits(s: string)
    requires AllDigits(s)
    ensures DashSeparators(s) == s
  {
  }

  /** `HH-mm-ss-sss`: the time part once ':' and '.' became '-'. */
  function StampTime(t: UtcInstant): string
  {
    ZeroPad(t.hour, 2) + "-" + ZeroPad(t.minute, 2) + "-" + ZeroPad(t.second, 2)
      + "-" + ZeroPad(t.millisecond, 3)
  }

  /** The stamp getTimestamp yields for an instant: `YYYY-MM-DD_HH-mm-ss-sss`. */
  function StampOf(t: UtcInstant): string
  {
    IsoDate(t) + "_" + StampTime(t)
  }

  lemma DashedIsoTime(t: UtcInstant)
    ensures DashSeparators(IsoTime(t)) == StampTime(t)
  {
    var h, mi, se, ms := ZeroPad(t.hour, 2), ZeroPad(t.minute, 2), ZeroPad(t.second, 2),
                         ZeroPad(t.millisecond, 3);
    DashSeparatorsDigits(h); DashSeparatorsDigits(mi); DashSeparatorsDigits(se);
    DashSeparatorsDigits(ms);
    DashSeparatorsConcat(h, ":");
    DashSeparatorsConcat(h + ":", mi);
    DashSeparatorsConcat(h + ":" + mi, ":");
    DashSeparatorsConcat(h + ":" + mi + ":", se);
    DashSeparatorsConcat(h + ":" + mi + ":" + se, ".");
    DashSeparatorsConcat(h + ":" + mi + ":" + se + ".", ms);
  }

  lemma DashedIsoDate(t: UtcInstant)
    ensures DashSeparators(IsoDate(t)) == IsoDate(t)
  {
    var y, mo, d := ZeroPad(t.year, 4), ZeroPad(t.month, 2), ZeroPad(t.day, 2);
    assert forall i :: 0 <= i < |IsoDate(t)| ==> IsoDate(t)[i] != ':' && IsoDate(t)[i] != '.';
  }

  lemma DashedIsoString(t: UtcInstant)
    requires t.Valid()
    ensures DashSeparators(IsoString(t)) == IsoDate(t) + ['T'] + (StampTime(t) + "Z")
  {
    DashedIsoDate(t);
    DashedIsoTime(t);
    DashSeparatorsConcat(IsoDate(t), "T");
    DashSeparatorsConcat(IsoDate(t) + "T", IsoTime(t));
    DashSeparatorsConcat(IsoDate(t) + "T" + IsoTime(t), "Z");
  }

  lemma ReplaceFirstTAt(a: string, w: string)
    requires 'T' !in a
    ensures ReplaceFirstT(a + ['T'] + w) == a + ['_'] + w
  {
    IndexOfJoin(a, 'T', w);
  }

  lemma BeforeFirstZAt(a: string)
    requires 'Z' !in a
    ensures BeforeFirstZ(a + ['Z']) == a
  {
    IndexOfJoin(a, 'Z', []);
    assert a + ['Z'] == a + ['Z'] + [];
  }

  /** Digits and dashes only: no 'T', no 'Z'. */
  predicate DigitsAndDashes(s: string)
  {
    forall i :: 0 <= i < |s| ==> IsDigit(s[i]) || s[i] == '-' || s[i] == '_'
  }

  /**
   * For the ISO string of a valid instant, getTimestamp yields
   * `YYYY-MM-DD_HH-mm-ss-sss`: the ':' and '.' of the time became '-', the
   * 'T' became '_' and the zone marker is gone.
   */
  lemma FileTimestampOfIso(t: UtcInstant)
    requires t.Valid()
    ensures FileTimestamp(IsoString(t)) == StampOf(t)
  {
    var date, rest := IsoDate(t), StampTime(t);
    IsoDateDigitsAndDashes(t);
    StampTimeDigitsAndDashes(t);
    DigitsAndDashesExclude(date, 'T');
    DigitsAndDashesJoin(date, rest);
    DigitsAndDashesExclude(date + "_" + rest, 'Z');
    var stamp := date + "_" + rest;
    DashedIsoString(t);
    var dashed := DashSeparators(IsoString(t));
    ReplaceFirstTAt(date, rest + "Z");
    var replaced := ReplaceFirstT(dashed);
    UnderscoreThenZone(date, rest);
    assert replaced == stamp + ['Z'];
    BeforeFirstZAt(stamp);
    FileTimestampSteps(IsoString(t));
    assert StampOf(t) == stamp;
  }

  lemma UnderscoreThenZone(date: string, rest: string)
    ensures date + ['_'] + (rest + "Z") == (date + "_" + rest) + ['Z']
  {
  }

  /** getTimestamp is the three rewrites applied in turn. */
  lemma FileTimestampSteps(iso: string)
    ensures FileTimestamp(iso) == BeforeFirstZ(ReplaceFirstT(DashSeparators(iso)))
  {
  }

  lemma IsoDateDigitsAndDashes(t: UtcInstant)
    ensures DigitsAndDashes(IsoDate(t))
  {
    var y, mo, d := ZeroPad(t.year, 4), ZeroPad(t.month, 2), ZeroPad(t.day, 2);
  }

  lemma StampTimeDigitsAndDashes(t: UtcInstant)
    ensures DigitsAndDashes(StampTime(t))
  {
    var h, mi, se, ms := ZeroPad(t.hour, 2), ZeroPad(t.minute, 2), ZeroPad(t.second, 2),
                         ZeroPad(t.millisecond, 3);
  }

  lemma DigitsAndDashesExclude(s: string, c: char)
    requires DigitsAndDashes(s) && !IsDigit(c) && c != '-' && c != '_'
    ensures c !in s
  {
  }

  lemma DigitsAndDashesJoin(a: string, b: string)
    requires DigitsAndDashes(a) && DigitsAndDashes(b)
    ensures DigitsAndDashes(a + "_" + b)
  {
  }
}
