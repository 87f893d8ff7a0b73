/**
 * The `Content` schema: a stored summary or exam with its soft-delete flag, the
 * defaults a new document takes, and the `creationDate` / `creationTime`
 * virtuals read off the ISO 8601 rendering of `createdAt`.
 */
module ContentModel {
  import opened Wrappers
  import opened Text

  /** `createdAt` and `deletedAt` are instants in milliseconds since 1970-01-01T00:00:00Z. */
  datatype Content = Content(
    userId: string,
    content: string,
    subject: Option<string>,
    title: string,
    contentType: string,
    shared: bool,
    copyContent: bool,
    deleted: bool,
    deletedAt: Option<nat>,
    createdAt: nat)

  const ContentTypes: seq<string> := ["Summary", "Exam"]

  predicate ValidContentType(t: string) {
    t in ContentTypes
  }

  /** The schema validators run by `create`: required strings are non-empty and the type is in the enum. */
  predicate Valid(c: Content) {
    c.userId != "" && c.content != "" && ValidContentType(c.contentType)
  }

  /** A document built from the given fields; every field left out takes the schema default. */
  function NewContent(userId: string, content: string, subject: Option<string>, title: Option<string>,
                      contentType: string, shared: Option<bool>, copyContent: Option<bool>, nowMs: nat): (c: Content)
    ensures c.subject == subject && c.title == title.GetOr("Untitled Title")
    ensures c.shared == shared.GetOr(false) && c.copyContent == copyContent.GetOr(false)
    ensures !c.deleted && c.deletedAt.None? && c.createdAt == nowMs
    ensures c.userId == userId && c.content == content && c.contentType == contentType
  {
    Content(userId, content, subject, title.GetOr("Untitled Title"), contentType,
            shared.GetOr(false), copyContent.GetOr(false), false, None, nowMs)
  }

  // ---------------------------------------------------------------------------
  // `Date.prototype.toISOString`

  /** `s` left-padded with '0' to at least `width` characters. */
  function PadLeft(s: string, width: nat): (r: string)
    ensures |r| == if |s| < width then width else |s|
    ensures r[|r| - |s|..] == s
    ensures forall k :: 0 <= k < |r| - |s| ==> r[k] == '0'
  {
    if |s| >= width then s
    else
      var zeros := seq(width - |s|, _ => '0');
      assert (zeros + s)[|zeros|..] == s;
      zeros + s
  }

  function Pad(n: nat, width: nat): string {
    PadLeft(NatToString(n), width)
  }

  /** A broken-down UTC instant. */
  datatype DateTime = DateTime(year: int, month: int, day: int, hour: nat, minute: nat, second: nat, milli: nat)

  /** The proleptic Gregorian (year, month, day) of a day count since 1970-01-01. */
  function CivilFromDays(days: nat): (int, int, int) {
    var z := days + 719468;
    var era := z / 146097;
    var doe := z - era * 146097;
    var yoe := (doe - doe / 1460 + doe / 36524 - doe / 146096) / 365;
    var doy := doe - (365 * yoe + yoe / 4 - yoe / 100);
    var mp := (5 * doy + 2) / 153;
    var d := doy - (153 * mp + 2) / 5 + 1;
    var m := if mp < 10 then mp + 3 else mp - 9;
    var y := yoe + era * 400;
    (if m <= 2 then y + 1 else y, m, d)
  }

  /** The fields of an instant; the time of day is UTC. */
  function Fields(ms: nat): (t: DateTime)
    ensures t.hour == ms % 86400000 / 3600000 < 24
    ensures t.minute == ms / 60000 % 60 && t.second == ms / 1000 % 60 && t.milli == ms % 1000
  {
    var (y, mo, d) := CivilFromDays(ms / 86400000);
    DateTime(y, mo, d, ms % 86400000 / 3600000, ms / 60000 % 60, ms / 1000 % 60, ms % 1000)
  }

  function IntField(i: int, width: nat): string {
    if i < 0 then "-" + Pad(-i, width) else Pad(i, width)
  }

  /** `YYYY-MM-DD`, with the six-digit signed year form beyond 9999. */
  function DateString(t: DateTime): string {
    var year := if 0 <= t.year <= 9999 then IntField(t.year, 4) else "+" + IntField(t.year, 6);
    year + "-" + IntField(t.month, 2) + "-" + IntField(t.day, 2)
  }

  function Clock(t: DateTime): string {
    Pad(t.hour, 2) + ":" + Pad(t.minute, 2) + ":" + Pad(t.second, 2)
  }

  /** `HH:mm:ss.sssZ`. */
  function TimeString(t: DateTime): string {
    Clock(t) + ("." + Pad(t.milli, 3) + "Z")
  }

  /** `Date.prototype.toISOString`. */
  function IsoString(ms: nat): string {
    DateString(Fields(ms)) + "T" + TimeString(Fields(ms))
  }

  /** The `creationDate` virtual: the ISO string up to the 'T'. */
  function CreationDate(c: Content): string {
    Split(IsoString(c.createdAt), 'T')[0]
  }

  /** The `creationTime` virtual: `substring(0, 8)` of the ISO string after the 'T'. */
  function CreationTime(c: Content): string {
    var parts := Split(IsoString(c.createdAt), 'T');
    var t := if |parts| > 1 then parts[1] else "";
    t[..if |t| < 8 then |t| else 8]
  }

  // ---------------------------------------------------------------------------
  // Properties of the rendering

  lemma PadDigits(n: nat, width: nat)
    ensures AllDigits(Pad(n, width))
  {
    var s := NatToString(n);
    var r := PadLeft(s, width);
    forall k | 0 <= k < |r| ensures IsDigit(r[k]) {
      if k >= |r| - |s| {
        assert r[k] == r[|r| - |s|..][k - (|r| - |s|)];
      }
    }
  }

  lemma NoTInDigits(s: string)
    requires AllDigits(s)
    ensures 'T' !in s
  {
  }

  lemma NotInConcat(a: string, b: string, c: char)
    requires c !in a && c !in b
    ensures c !in a + b
  {
  }

  lemma PadHasNoT(n: nat, width: nat)
    ensures 'T' !in Pad(n, width)
  {
    PadDigits(n, width);
    NoTInDigits(Pad(n, width));
  }

  lemma IntFieldHasNoT(i: int, width: nat)
    ensures 'T' !in IntField(i, width)
  {
    if i < 0 {
      PadHasNoT(-i, width);
      NotInConcat("-", Pad(-i, width), 'T');
    } else {
      PadHasNoT(i, width);
    }
  }

  lemma DateStringHasNoT(t: DateTime)
    ensures 'T' !in DateString(t)
  {
    var year := if 0 <= t.year <= 9999 then IntField(t.year, 4) else "+" + IntField(t.year, 6);
    IntFieldHasNoT(t.year, 4);
    IntFieldHasNoT(t.year, 6);
    NotInConcat("+", IntField(t.year, 6), 'T');
    IntFieldHasNoT(t.month, 2);
    IntFieldHasNoT(t.day, 2);
    NotInConcat(year, "-", 'T');
    NotInConcat(year + "-", IntField(t.month, 2), 'T');
    NotInConcat(year + "-" + IntField(t.month, 2), "-", 'T');
    NotInConcat(year + "-" + IntField(t.month, 2) + "-", IntField(t.day, 2), 'T');
  }

  lemma TimeStringHasNoT(t: DateTime)
    ensures 'T' !in TimeString(t)
  {
    var h, m, s, f := Pad(t.hour, 2), Pad(t.minute, 2), Pad(t.second, 2), Pad(t.milli, 3);
    PadHasNoT(t.hour, 2);
    PadHasNoT(t.minute, 2);
    PadHasNoT(t.second, 2);
    PadHasNoT(t.milli, 3);
    NotInConcat(h, ":", 'T');
    NotInConcat(h + ":", m, 'T');
    NotInConcat(h + ":" + m, ":", 'T');
    NotInConcat(h + ":" + m + ":", s, 'T');
    NotInConcat(".", f, 'T');
    NotInConcat("." + f, "Z", 'T');
    NotInConcat(Clock(t), "." + f + "Z", 'T');
  }

  lemma SplitAtT(d: string, c: string)
    requires 'T' !in d && 'T' !in c
    ensures Split(d + "T" + c, 'T') == [d, c]
  {
    SplitAtSep(d, c, 'T');
    SplitNoSep(c, 'T');
    assert d + "T" + c == d + ['T'] + c;
  }

  /** The ISO string splits at its single 'T' into the date and the time. */
  lemma IsoSplit(t: DateTime)
    ensures Split(DateString(t) + "T" + TimeString(t), 'T') == [DateString(t), TimeString(t)]
  {
    DateStringHasNoT(t);
    TimeStringHasNoT(t);
    SplitAtT(DateString(t), TimeString(t));
  }

  /** A two-digit field of a number below 100 reads back as that number. */
  lemma Pad2RoundTrip(n: nat)
    requires n < 100
    ensures |Pad(n, 2)| == 2 && ParseNat(Pad(n, 2)) == Some(n)
  {
    var s := NatToString(n);
    NatToStringRoundTrip(n);
    if n < 10 {
      assert s == [DigitChar(n)];
      var p := Pad(n, 2);
      assert p == "0" + s;
      assert p[..1] == "0";
      assert DigitsValue(p[..1]) == DigitsValue(p[..1][..0]) * 10 + DigitValue('0');
      assert DigitsValue(p) == DigitsValue(p[..1]) * 10 + DigitValue(p[1]);
      assert DigitsValue(s) == DigitsValue(s[..0]) * 10 + DigitValue(s[0]);
    } else {
      assert s == NatToString(n / 10) + [DigitChar(n % 10)];
    }
  }

  lemma ClockSlices(h: string, m: string, s: string)
    requires |h| == 2 && |m| == 2 && |s| == 2
    ensures var c := h + ":" + m + ":" + s;
      |c| == 8 && c[2] == ':' && c[5] == ':' && c[..2] == h && c[3..5] == m && c[6..] == s
  {
  }

  /** The clock of a well-formed time of day is `HH:mm:ss` and reads back as its fields. */
  lemma ClockReadsBack(t: DateTime)
    requires t.hour < 100 && t.minute < 100 && t.second < 100
    ensures var c := Clock(t);
      |c| == 8 && c[2] == ':' && c[5] == ':'
      && ParseNat(c[..2]) == Some(t.hour) && ParseNat(c[3..5]) == Some(t.minute) && ParseNat(c[6..]) == Some(t.second)
  {
    Pad2RoundTrip(t.hour);
    Pad2RoundTrip(t.minute);
    Pad2RoundTrip(t.second);
    ClockSlices(Pad(t.hour, 2), Pad(t.minute, 2), Pad(t.second, 2));
  }

  lemma PrefixOf(a: string, b: string)
    ensures (a + b)[..|a|] == a
  {
  }

  /** `creationTime` is the clock part of the ISO string. */
  lemma CreationTimeIsClock(c: Content)
    ensures CreationDate(c) == DateString(Fields(c.createdAt))
    ensures CreationTime(c) == Clock(Fields(c.createdAt))
  {
    var t := Fields(c.createdAt);
    IsoSplit(t);
    ClockReadsBack(t);
    PrefixOf(Clock(t), "." + Pad(t.milli, 3) + "Z");
  }

  lemma IsoAssoc(d: string, clock: string, f: string)
    ensures d + "T" + (clock + ("." + f + "Z")) == d + "T" + clock + "." + f + "Z"
  {
  }

  /** `creationDate` and `creationTime`, with the milliseconds, rebuild the ISO string. */
  lemma CreationParts(c: Content)
    ensures IsoString(c.createdAt)
         == CreationDate(c) + "T" + CreationTime(c) + "." + Pad(c.createdAt % 1000, 3) + "Z"
  {
    CreationTimeIsClock(c);
    var t := Fields(c.createdAt);
    IsoAssoc(DateString(t), Clock(t), Pad(t.milli, 3));
  }

  /** `creationTime` reads back as the UTC hour, minute and second of `createdAt`. */
  lemma CreationTimeReadsBack(c: Content)
    ensures var t := CreationTime(c);
      |t| == 8 && t[2] == ':' && t[5] == ':'
      && ParseNat(t[..2]) == Some(c.createdAt % 86400000 / 3600000)
      && ParseNat(t[3..5]) == Some(c.createdAt / 60000 % 60)
      && ParseNat(t[6..]) == Some(c.createdAt / 1000 % 60)
  {
    CreationTimeIsClock(c);
    ClockReadsBack(Fields(c.createdAt));
  }
}
