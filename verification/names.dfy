/**
  The backup artifact naming convention `SYSDATA_yyyy_MM_dd_HH_mm_ss.pcsave.backup`
  shared by both versions of the manager, together with a parser for it.

  The name embeds the clock reading at second resolution with fixed-width,
  zero-padded decimal fields, so it is injective on the calendar fields: two
  backups taken in the same second get the same name, two taken in different
  seconds never do.
 */
module BackupNames {

  datatype Option<+T> = None | Some(value: T)

  /** The calendar fields of a clock reading, truncated to whole seconds. */
  datatype Stamp = Stamp(year: nat, month: nat, day: nat, hour: nat, minute: nat, second: nat)

  /** The ranges a .NET `DateTime` keeps its fields in. */
  predicate InRange(t: Stamp) {
    && 1 <= t.year <= 9999
    && 1 <= t.month <= 12
    && 1 <= t.day <= 31
    && t.hour < 24
    && t.minute < 60
    && t.second < 60
  }

  /** A clock reading as the program sees it. */
  type Moment = t: Stamp | InRange(t) witness Stamp(1, 1, 1, 0, 0, 0)

  /** Strict chronological order of two readings (lexicographic on the fields). */
  predicate Earlier(a: Stamp, b: Stamp) {
    || a.year < b.year
    || (a.year == b.year && a.month < b.month)
    || (a.year == b.year && a.month == b.month && a.day < b.day)
    || (a.year == b.year && a.month == b.month && a.day == b.day && a.hour < b.hour)
    || (a.year == b.year && a.month == b.month && a.day == b.day && a.hour == b.hour && a.minute < b.minute)
    || (a.year == b.year && a.month == b.month && a.day == b.day && a.hour == b.hour && a.minute == b.minute
        && a.second < b.second)
  }

  function Pow10(w: nat): (p: nat)
    ensures p >= 1
  {
    if w == 0 then 1 else 10 * Pow10(w - 1)
  }

  predicate IsDigit(c: char) {
    '0' <= c <= '9'
  }

  predicate AllDigits(s: string) {
    forall i :: 0 <= i < |s| ==> IsDigit(s[i])
  }

  function DigitChar(d: nat): (c: char)
    requires d < 10
    ensures IsDigit(c)
  {
    ('0' as int + d) as char
  }

  function DigitValue(c: char): nat {
    if IsDigit(c) then c as int - '0' as int else 0
  }

  /** The low `w` decimal digits of `n`, zero-padded: the `yyyy` and `MM` custom format specifiers. */
  function Pad(n: nat, w: nat): (s: string)
    ensures |s| == w
    ensures AllDigits(s)
  {
    if w == 0 then [] else Pad(n / 10, w - 1) + [DigitChar(n % 10)]
  }

  /** The number a string of decimal digits denotes. */
  function Value(s: string): nat {
    if |s| == 0 then 0 else 10 * Value(s[..|s| - 1]) + DigitValue(s[|s| - 1])
  }

  /** Reading back a padded field gives the number it was made from. */
  lemma {:induction false} ValueOfPad(n: nat, w: nat)
    requires n < Pow10(w)
    ensures Value(Pad(n, w)) == n
  {
    if w > 0 {
      var s := Pad(n, w);
      assert s[..|s| - 1] == Pad(n / 10, w - 1);
      assert n / 10 < Pow10(w - 1);
      ValueOfPad(n / 10, w - 1);
    }
  }

  /** Every string of digits is the padding of its own value. */
  lemma {:induction false} PadOfValue(s: string)
    requires AllDigits(s)
    ensures Value(s) < Pow10(|s|)
    ensures Pad(Value(s), |s|) == s
  {
    if |s| > 0 {
      var p := s[..|s| - 1];
      var d := DigitValue(s[|s| - 1]);
      PadOfValue(p);
      assert Value(s) == 10 * Value(p) + d;
      assert Value(s) / 10 == Value(p) && Value(s) % 10 == d;
      assert DigitChar(d) == s[|s| - 1];
      assert s == p + [s[|s| - 1]];
    }
  }

  const Prefix: string := "SYSDATA_"
  const Suffix: string := ".pcsave.backup"

  /** Length of every backup name: prefix, 4 + 5 * (1 + 2) field characters, suffix. */
  const NameLength: nat := 41

  /** `SYSDATA_{t:yyyy_MM_dd_HH_mm_ss}.pcsave.backup` */
  function BackupFileName(t: Moment): (name: string)
    ensures WellFormed(name)
    ensures name[..7] == "SYSDATA"
  {
    Prefix + Pad(t.year, 4) + "_" + Pad(t.month, 2) + "_" + Pad(t.day, 2) + "_"
    + Pad(t.hour, 2) + "_" + Pad(t.minute, 2) + "_" + Pad(t.second, 2) + Suffix
  }

  /** The shape of a backup name, apart from the field values. */
  predicate WellFormed(name: string) {
    && |name| == NameLength
    && name[..8] == Prefix
    && name[27..] == Suffix
    && name[12] == '_' && name[15] == '_' && name[18] == '_' && name[21] == '_' && name[24] == '_'
    && AllDigits(name[8..12]) && AllDigits(name[13..15]) && AllDigits(name[16..18])
    && AllDigits(name[19..21]) && AllDigits(name[22..24]) && AllDigits(name[25..27])
  }

  /** Recovers the clock reading a backup name was made from, if it is one. */
  function ParseBackupFileName(name: string): (r: Option<Moment>)
    ensures r.Some? ==> WellFormed(name)
  {
    if !WellFormed(name) then None
    else
      var t := Stamp(Value(name[8..12]), Value(name[13..15]), Value(name[16..18]),
                     Value(name[19..21]), Value(name[22..24]), Value(name[25..27]));
      if InRange(t) then Some(t) else None
  }

  lemma BackupFileNameFields(t: Moment)
    ensures var name := BackupFileName(t);
      && name[..8] == Prefix && name[27..] == Suffix
      && name[12] == '_' && name[15] == '_' && name[18] == '_' && name[21] == '_' && name[24] == '_'
      && name[8..12] == Pad(t.year, 4) && name[13..15] == Pad(t.month, 2) && name[16..18] == Pad(t.day, 2)
      && name[19..21] == Pad(t.hour, 2) && name[22..24] == Pad(t.minute, 2) && name[25..27] == Pad(t.second, 2)
  {
    var name := BackupFileName(t);
    var y, mo, d, h, mi, s := Pad(t.year, 4), Pad(t.month, 2), Pad(t.day, 2),
                              Pad(t.hour, 2), Pad(t.minute, 2), Pad(t.second, 2);
    assert name == Prefix + y + "_" + mo + "_" + d + "_" + h + "_" + mi + "_" + s + Suffix;
  }

  /** Parsing a formatted name gives back the reading: the format loses nothing. */
  lemma ParseOfFormat(t: Moment)
    ensures ParseBackupFileName(BackupFileName(t)) == Some(t)
  {
    var name := BackupFileName(t);
    BackupFileNameFields(t);
    ValueOfPad(t.year, 4);
    ValueOfPad(t.month, 2);
    ValueOfPad(t.day, 2);
    ValueOfPad(t.hour, 2);
    ValueOfPad(t.minute, 2);
    ValueOfPad(t.second, 2);
  }

  /** A string of backup-name length is the concatenation of its prefix, field, separator and suffix segments. */
  lemma {:induction false} Segments(name: string)
    requires |name| == NameLength
    ensures name == name[..8] + name[8..12] + [name[12]] + name[13..15] + [name[15]] + name[16..18] + [name[18]]
      + name[19..21] + [name[21]] + name[22..24] + [name[24]] + name[25..27] + name[27..]
  {
    assert name[..12] == name[..8] + name[8..12];
    assert name[..13] == name[..12] + [name[12]];
    assert name[..15] == name[..13] + name[13..15];
    assert name[..16] == name[..15] + [name[15]];
    assert name[..18] == name[..16] + name[16..18];
    assert name[..19] == name[..18] + [name[18]];
    assert name[..21] == name[..19] + name[19..21];
    assert name[..22] == name[..21] + [name[21]];
    assert name[..24] == name[..22] + name[22..24];
    assert name[..25] == name[..24] + [name[24]];
    assert name[..27] == name[..25] + name[25..27];
    assert name == name[..27] + name[27..];
  }

  /** A name that parses is exactly the format of what it parses to. */
  lemma FormatOfParse(name: string)
    requires ParseBackupFileName(name).Some?
    ensures BackupFileName(ParseBackupFileName(name).value) == name
  {
    var t := ParseBackupFileName(name).value;
    PadOfValue(name[8..12]);
    PadOfValue(name[13..15]);
    PadOfValue(name[16..18]);
    PadOfValue(name[19..21]);
    PadOfValue(name[22..24]);
    PadOfValue(name[25..27]);
    Segments(name);
  }

  /** Two readings get the same name exactly when they fall in the same second. */
  lemma NameInjective(a: Moment, b: Moment)
    ensures BackupFileName(a) == BackupFileName(b) <==> a == b
  {
    if BackupFileName(a) == BackupFileName(b) {
      ParseOfFormat(a);
      ParseOfFormat(b);
    }
  }

  /** `Earlier` is a strict total order on readings. */
  lemma EarlierIsStrictTotal(a: Stamp, b: Stamp, c: Stamp)
    ensures !Earlier(a, a)
    ensures Earlier(a, b) ==> !Earlier(b, a)
    ensures Earlier(a, b) && Earlier(b, c) ==> Earlier(a, c)
    ensures a != b ==> Earlier(a, b) || Earlier(b, a)
  {
  }
}
