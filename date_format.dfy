/**
 * Short Japanese-style date labels (src/utils/date.ts).  Parsing the ISO
 * string and reading its local calendar fields is JavaScript `Date` work and
 * is an input here (`Fields`); what is modelled is the zero-padded layout.
 */
module DateFormat {
  import opened Common
  import JsNumber

  /** What `getFullYear`, `getMonth` (zero-based), `getDate`, `getHours`, `getMinutes` and `getSeconds` give. */
  datatype Fields = Fields(year: int, month0: int, date: int, hours: int, minutes: int, seconds: int)

  /** The ranges a valid `Date` keeps its fields in. */
  predicate ValidFields(f: Fields) {
    0 <= f.month0 < 12 && 1 <= f.date <= 31 && 0 <= f.hours < 24 && 0 <= f.minutes < 60 && 0 <= f.seconds < 60
  }

  /** JavaScript `%`: the remainder takes the sign of the dividend. */
  function JsRem(a: int, b: int): (r: int)
    requires b > 0
    ensures a >= 0 ==> 0 <= r < b && r == a % b
    ensures a < 0 ==> -b < r <= 0 && r == -((-a) % b)
  {
    if a >= 0 then a % b else -((-a) % b)
  }

  /** The value of a two-digit field. */
  function Two(s: string, at: nat): int
    requires at + 2 <= |s|
  {
    (s[at] as int - '0' as int) * 10 + (s[at + 1] as int - '0' as int)
  }

  /** `YY/MM/DD` of the fields. */
  function ShortDate(f: Fields): string {
    JsNumber.Pad2(JsRem(f.year, 100)) + "/" + JsNumber.Pad2(f.month0 + 1) + "/" + JsNumber.Pad2(f.date)
  }

  /** `formatJaShortDate`: empty for a missing or empty ISO string. */
  function FormatJaShortDate(iso: Option<string>, f: Fields): (r: string)
    ensures !Truthy(iso) ==> r == ""
  {
    if !Truthy(iso) then "" else ShortDate(f)
  }

  /** `formatJaShortDateTime`: the short date, a space and `hh:mm:ss`. */
  function FormatJaShortDateTime(iso: Option<string>, f: Fields): (r: string)
    ensures !Truthy(iso) ==> r == ""
  {
    if !Truthy(iso) then ""
    else ShortDate(f) + " " + JsNumber.Pad2(f.hours) + ":" + JsNumber.Pad2(f.minutes) + ":" + JsNumber.Pad2(f.seconds)
  }

  /** Where the pieces of `a/b/c` sit when each piece has two characters. */
  lemma {:induction false} SlashedAt(a: string, b: string, c: string)
    requires |a| == 2 && |b| == 2 && |c| == 2
    ensures var r := a + "/" + b + "/" + c;
      |r| == 8 && r[..2] == a && r[2] == '/' && r[3..5] == b && r[5] == '/' && r[6..] == c &&
      r[0] == a[0] && r[1] == a[1] && r[3] == b[0] && r[4] == b[1] && r[6] == c[0] && r[7] == c[1]
  {
    var r := a + "/" + b + "/" + c;
    assert r == [a[0], a[1], '/', b[0], b[1], '/', c[0], c[1]];
  }

  /** Where the pieces of `d h:m:s` sit when `d` has eight characters and the others two. */
  lemma {:induction false} TimedAt(d: string, h: string, m: string, s: string)
    requires |d| == 8 && |h| == 2 && |m| == 2 && |s| == 2
    ensures var r := d + " " + h + ":" + m + ":" + s;
      |r| == 17 && r[..8] == d && r[8] == ' ' && r[11] == ':' && r[14] == ':' &&
      r[9] == h[0] && r[10] == h[1] && r[12] == m[0] && r[13] == m[1] && r[15] == s[0] && r[16] == s[1]
  {
    var r := d + " " + h + ":" + m + ":" + s;
    var t := " " + h + ":" + m + ":" + s;
    assert t == [' ', h[0], h[1], ':', m[0], m[1], ':', s[0], s[1]];
    assert r == d + t;
  }

  /**
   * For a year not before 0 the short date is eight characters: the year
   * modulo 100, the one-based month and the day, two digits each, between
   * slashes.
   */
  lemma {:induction false} ShortDateLayout(iso: Option<string>, f: Fields)
    requires Truthy(iso) && ValidFields(f) && f.year >= 0
    ensures var r := FormatJaShortDate(iso, f);
      |r| == 8 && r[2] == '/' && r[5] == '/' &&
      Two(r, 0) == f.year % 100 && Two(r, 3) == f.month0 + 1 && Two(r, 6) == f.date &&
      JsNumber.AllDecimal(r[..2]) && JsNumber.AllDecimal(r[3..5]) && JsNumber.AllDecimal(r[6..])
  {
    var yy := JsNumber.Pad2(JsRem(f.year, 100));
    var mm := JsNumber.Pad2(f.month0 + 1);
    var dd := JsNumber.Pad2(f.date);
    SlashedAt(yy, mm, dd);
    assert FormatJaShortDate(iso, f) == yy + "/" + mm + "/" + dd;
  }

  /**
   * The date-time label is the short date, a space, and the hours, minutes
   * and seconds two digits each between colons: seventeen characters.
   */
  lemma {:induction false} ShortDateTimeLayout(iso: Option<string>, f: Fields)
    requires Truthy(iso) && ValidFields(f) && f.year >= 0
    ensures var r := FormatJaShortDateTime(iso, f);
      |r| == 17 && r[..8] == FormatJaShortDate(iso, f) && r[8] == ' ' && r[11] == ':' && r[14] == ':' &&
      Two(r, 9) == f.hours && Two(r, 12) == f.minutes && Two(r, 15) == f.seconds
  {
    ShortDateLayout(iso, f);
    var d := FormatJaShortDate(iso, f);
    var hh := JsNumber.Pad2(f.hours);
    var mi := JsNumber.Pad2(f.minutes);
    var ss := JsNumber.Pad2(f.seconds);
    TimedAt(d, hh, mi, ss);
    assert FormatJaShortDateTime(iso, f) == d + " " + hh + ":" + mi + ":" + ss;
  }
}
