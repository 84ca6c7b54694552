/**
 * The time stamps carried in Level II file names. NCDC archive names read
 * `IDyyyyMMdd_hhmmss`; names delivered over LDM come in the NRL form
 * `ID.yyyyMMdd...hhmmss` and the Purdue form `ID_yyyyMMdd_hhmm`. The radar ID
 * is removed from the name before the fields are read.
 */
module FileNames {
  import opened Wrappers
  import opened Strings
  import opened Timestamps

  /** What a file name yields: its time, if it parses, and whether the dialect-mismatch warning is logged. */
  datatype Stamp = Stamp(time: Option<int>, mismatch: bool)

  /** NCDC names: the date before the first '_', the hhmmss time after it. */
  function NcdcTime(file: string, radarName: string): Option<int>
  {
    var timestamp := Split(RemoveAll(file, radarName), '_');
    // With no '_' the time field does not exist and no time is read.
    if |timestamp| < 2 then None
    else Combine(ParseDate(timestamp[0]), ParseHms(timestamp[1]))
  }

  /**
   * LDM names, after the last '/' and without the radar ID: with a '.', the
   * first eight and last six characters of the second field; with a '_', the
   * date in the second field and the hhmm time in the third, whose absence is
   * reported as a likely NCDC name.
   */
  function LdmStamp(file: string, radarName: string): Stamp
  {
    LdmFields(RemoveAll(Last(Split(file, '/')), radarName))
  }

  /** The LDM dialects, on the name once its directory part and radar ID are gone. */
  function LdmFields(timepart: string): Stamp
  {
    if '.' in timepart then
      var timestamp := Split(timepart, '.');
      Stamp(Combine(ParseDate(Left(timestamp[1], 8)), ParseHms(Right(timestamp[1], 6))), false)
    else if '_' in timepart then
      var timestamp := Split(timepart, '_');
      if |timestamp| > 2 then Stamp(Combine(ParseDate(timestamp[1]), ParseHm(timestamp[2])), false)
      else Stamp(Combine(ParseDate(timestamp[1]), None), true)
    else Stamp(None, false)
  }

  /** Characters that never start a radar ID: digits and the field separators. */
  predicate FieldChar(c: char)
  {
    IsDigit(c) || c == '_' || c == '.'
  }

  /** A radar ID that cannot occur inside the digits and separators of a time stamp. */
  predicate RadarId(r: string)
  {
    |r| > 0 && !FieldChar(r[0]) && '/' !in r
  }

  lemma RemoveIdPrefix(r: string, t: string)
    requires RadarId(r)
    requires FieldText(t)
    ensures RemoveAll(r + t, r) == t
  {
    RemoveAllPrefix(r, t);
    assert forall i: nat :: !OccursAt(t, r, i);
    RemoveAllAbsent(t, r);
  }

  /** Removing the directory part and the radar ID leaves the stamp text. */
  lemma LdmTimepart(r: string, t: string)
    requires RadarId(r) && '/' !in t
    requires FieldText(t)
    ensures RemoveAll(Last(Split(r + t, '/')), r) == t
  {
    var file := r + t;
    assert '/' !in file by {
      forall i | 0 <= i < |file| ensures file[i] != '/' {
        if i < |r| { assert file[i] == r[i]; } else { assert file[i] == t[i - |r|]; }
      }
    }
    SplitWhole(file, '/');
    RemoveIdPrefix(r, t);
  }

  function HmsText(h: nat, m: nat, sec: nat): string
  {
    Digits(h, 2) + Digits(m, 2) + Digits(sec, 2)
  }

  /** A valid time of day in "hhmmss" is read back as the seconds it names. */
  lemma HmsTextParses(h: nat, m: nat, sec: nat)
    requires h < 24 && m < 60 && sec < 60
    ensures ParseHms(HmsText(h, m, sec)) == Some(h * 3600 + m * 60 + sec)
  {
    ParseHmsDigits(h, m, sec);
  }

  lemma HmsTextDigits(h: nat, m: nat, sec: nat)
    ensures AllDigits(HmsText(h, m, sec))
  {
    AllDigitsAppend(Digits(h, 2), Digits(m, 2));
    AllDigitsAppend(Digits(h, 2) + Digits(m, 2), Digits(sec, 2));
  }

  /** An NCDC name built from a date and a time is read back as that date-time. */
  lemma NcdcNameTime(r: string, d: Date, h: nat, m: nat, sec: nat)
    requires RadarId(r) && ValidDate(d) && d.year < 10000
    requires h < 24 && m < 60 && sec < 60
    ensures NcdcTime(r + FormatDate(d) + "_" + HmsText(h, m, sec), r) == Some(DateTime(d, h * 3600 + m * 60 + sec))
  {
    FormatDateDigits(d);
    HmsTextDigits(h, m, sec);
    ParseFormatDate(d);
    HmsTextParses(h, m, sec);
    NcdcNameParsed(r, FormatDate(d), HmsText(h, m, sec), d, h * 3600 + m * 60 + sec);
  }

  /** An NCDC name whose date and time parse is read back as that date-time. */
  lemma NcdcNameParsed(r: string, date: string, hms: string, d: Date, secs: nat)
    requires RadarId(r) && AllDigits(date) && AllDigits(hms)
    requires ValidDate(d) && secs < 86400
    requires ParseDate(date) == Some(d) && ParseHms(hms) == Some(secs)
    ensures NcdcTime(r + date + "_" + hms, r) == Some(DateTime(d, secs))
  {
    NcdcText(r, date, hms);
  }

  /** The fields of an NCDC name are its date and time digits. */
  lemma NcdcText(r: string, date: string, hms: string)
    requires RadarId(r) && AllDigits(date) && AllDigits(hms)
    ensures NcdcTime(r + date + "_" + hms, r) == Combine(ParseDate(date), ParseHms(hms))
  {
    var t := date + ['_'] + hms;
    assert r + date + "_" + hms == r + t;
    assert FieldText(t) by {
      forall i | 0 <= i < |t| ensures FieldChar(t[i]) {
        if i < |date| { assert t[i] == date[i]; }
        else if i > |date| { assert t[i] == hms[i - |date| - 1]; }
      }
    }
    RemoveIdPrefix(r, t);
    DigitsNoSeparator(date, '_');
    DigitsNoSeparator(hms, '_');
    assert Split(t, '_') == [date, hms] by {
      SplitFirst(date, '_', hms);
      SplitWhole(hms, '_');
    }
  }

  /** Digits and the field separators only. */
  predicate FieldText(t: string)
  {
    forall i :: 0 <= i < |t| ==> FieldChar(t[i])
  }

  lemma DigitsNoSeparator(s: string, c: char)
    requires AllDigits(s) && !IsDigit(c)
    ensures c !in s
  {
  }

  function HmText(h: nat, m: nat): string
  {
    Digits(h, 2) + Digits(m, 2)
  }

  lemma HmTextParses(h: nat, m: nat)
    requires h < 24 && m < 60
    ensures AllDigits(HmText(h, m))
    ensures ParseHm(HmText(h, m)) == Some(h * 3600 + m * 60)
  {
    AllDigitsAppend(Digits(h, 2), Digits(m, 2));
    ParseHmDigits(h, m);
  }

  /** A Purdue-style LDM name is read back as its date and hhmm time, without a warning. */
  lemma PurdueNameTime(r: string, d: Date, h: nat, m: nat)
    requires RadarId(r) && ValidDate(d) && d.year < 10000
    requires h < 24 && m < 60
    ensures LdmStamp(r + "_" + FormatDate(d) + "_" + HmText(h, m), r)
         == Stamp(Some(DateTime(d, h * 3600 + m * 60)), false)
  {
    FormatDateDigits(d);
    HmTextParses(h, m);
    ParseFormatDate(d);
    PurdueNameParsed(r, FormatDate(d), HmText(h, m), d, h * 3600 + m * 60);
  }

  /** A Purdue-style name whose date and time fields parse is read back as that date-time. */
  lemma PurdueNameParsed(r: string, date: string, hm: string, d: Date, secs: nat)
    requires RadarId(r) && AllDigits(date) && AllDigits(hm)
    requires ValidDate(d) && secs < 86400
    requires ParseDate(date) == Some(d) && ParseHm(hm) == Some(secs)
    ensures LdmStamp(r + "_" + date + "_" + hm, r) == Stamp(Some(DateTime(d, secs)), false)
  {
    PurdueName(r, date, hm);
  }

  /** The name reads as the Purdue form of its stamp text. */
  lemma PurdueName(r: string, date: string, hm: string)
    requires RadarId(r) && AllDigits(date) && AllDigits(hm)
    ensures LdmStamp(r + "_" + date + "_" + hm, r) == Stamp(Combine(ParseDate(date), ParseHm(hm)), false)
  {
    var t := ['_'] + date + ['_'] + hm;
    assert r + "_" + date + "_" + hm == r + t;
    PurdueStampText(date, hm);
    LdmStampOf(r, t);
    PurdueFields(date, hm);
  }

  /** Without its directory part and radar ID, the name leaves its stamp text to the dialects. */
  lemma LdmStampOf(r: string, t: string)
    requires RadarId(r) && '/' !in t && FieldText(t)
    ensures LdmStamp(r + t, r) == LdmFields(t)
  {
    LdmTimepart(r, t);
  }

  /** A Purdue stamp text has only digits and separators, and no '.'. */
  lemma PurdueStampText(date: string, hm: string)
    requires AllDigits(date) && AllDigits(hm)
    ensures var t := ['_'] + date + ['_'] + hm; FieldText(t) && '/' !in t && '.' !in t
  {
    var t := ['_'] + date + ['_'] + hm;
    forall i | 0 <= i < |t| ensures FieldChar(t[i]) && t[i] != '/' && t[i] != '.' {
      if 0 < i <= |date| { assert t[i] == date[i - 1]; }
      else if i > |date| + 1 { assert t[i] == hm[i - |date| - 2]; }
    }
  }

  /** The Purdue dialect reads the date and hhmm fields of its stamp text. */
  lemma PurdueFields(date: string, hm: string)
    requires AllDigits(date) && AllDigits(hm)
    ensures LdmFields(['_'] + date + ['_'] + hm) == Stamp(Combine(ParseDate(date), ParseHm(hm)), false)
  {
    var t := ['_'] + date + ['_'] + hm;
    PurdueStampText(date, hm);
    assert t[0] == '_';
    PurdueSplit(date, hm);
  }

  lemma PurdueSplit(date: string, hm: string)
    requires AllDigits(date) && AllDigits(hm)
    ensures Split(['_'] + date + ['_'] + hm, '_') == [[], date, hm]
  {
    DigitsNoSeparator(date, '_');
    DigitsNoSeparator(hm, '_');
    var rest := date + ['_'] + hm;
    assert ['_'] + date + ['_'] + hm == [] + ['_'] + rest;
    assert Split(rest, '_') == [date, hm] by {
      SplitFirst(date, '_', hm);
      SplitWhole(hm, '_');
    }
    SplitFirst([], '_', rest);
    var empty: string := [];
    assert [empty] + [date, hm] == [empty, date, hm];
  }

  /** A Purdue-style name without its time field gives midnight of its date and the mismatch warning. */
  lemma PurdueNameWithoutTime(r: string, d: Date)
    requires RadarId(r) && ValidDate(d) && d.year < 10000
    ensures LdmStamp(r + "_" + FormatDate(d), r) == Stamp(Some(DateTime(d, 0)), true)
  {
    FormatDateDigits(d);
    PurdueDateOnly(r, FormatDate(d));
    ParseFormatDate(d);
  }

  /** A Purdue-style name whose stamp is only a date field. */
  lemma PurdueDateOnly(r: string, date: string)
    requires RadarId(r) && AllDigits(date)
    ensures LdmStamp(r + "_" + date, r) == Stamp(Combine(ParseDate(date), None), true)
  {
    var t := ['_'] + date;
    assert r + "_" + date == r + t;
    assert FieldText(t) by {
      forall i | 0 <= i < |t| ensures FieldChar(t[i]) {
        if 0 < i { assert t[i] == date[i - 1]; }
      }
    }
    LdmTimepart(r, t);
    assert '.' !in t by { assert FieldText(t); }
    DigitsNoSeparator(date, '_');
    assert t == [] + ['_'] + date;
    SplitFirst([], '_', date);
    SplitWhole(date, '_');
    assert Split(t, '_') == [[], date];
  }

  /** An NRL-style LDM name is read back from the ends of its second field. */
  lemma NrlNameTime(r: string, d: Date, h: nat, m: nat, sec: nat)
    requires RadarId(r) && ValidDate(d) && d.year < 10000
    requires h < 24 && m < 60 && sec < 60
    ensures LdmStamp(r + "." + FormatDate(d) + HmsText(h, m, sec), r)
         == Stamp(Some(DateTime(d, h * 3600 + m * 60 + sec)), false)
  {
    FormatDateDigits(d);
    HmsTextDigits(h, m, sec);
    ParseFormatDate(d);
    HmsTextParses(h, m, sec);
    NrlNameParsed(r, FormatDate(d), HmsText(h, m, sec), d, h * 3600 + m * 60 + sec);
  }

  /** An NRL-style name whose date and time parse is read back as that date-time. */
  lemma NrlNameParsed(r: string, date: string, hms: string, d: Date, secs: nat)
    requires RadarId(r) && AllDigits(date) && AllDigits(hms) && |date| == 8 && |hms| == 6
    requires ValidDate(d) && secs < 86400
    requires ParseDate(date) == Some(d) && ParseHms(hms) == Some(secs)
    ensures LdmStamp(r + "." + date + hms, r) == Stamp(Some(DateTime(d, secs)), false)
  {
    NrlName(r, date, hms);
  }

  /** The date is the first eight and the time the last six characters of the second field. */
  lemma NrlName(r: string, date: string, hms: string)
    requires RadarId(r) && AllDigits(date) && AllDigits(hms) && |date| == 8 && |hms| == 6
    ensures LdmStamp(r + "." + date + hms, r) == Stamp(Combine(ParseDate(date), ParseHms(hms)), false)
  {
    var field := date + hms;
    assert r + "." + date + hms == r + (['.'] + field);
    AllDigitsAppend(date, hms);
    NrlText(r, field);
    assert Left(field, 8) == date;
    assert Right(field, 6) == hms;
  }

  lemma NrlText(r: string, field: string)
    requires RadarId(r) && AllDigits(field)
    ensures LdmStamp(r + (['.'] + field), r) == Stamp(Combine(ParseDate(Left(field, 8)), ParseHms(Right(field, 6))), false)
  {
    var t := ['.'] + field;
    assert FieldText(t) by {
      forall i | 0 <= i < |t| ensures FieldChar(t[i]) {
        if 0 < i { assert t[i] == field[i - 1]; }
      }
    }
    LdmTimepart(r, t);
    DigitsNoSeparator(field, '.');
    assert t == [] + ['.'] + field;
    SplitFirst([], '.', field);
    SplitWhole(field, '.');
    assert Split(t, '.') == [[], field];
  }
}
