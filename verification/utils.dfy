/** The pure helpers of the client's `utils` module: `formatTime`,
    `truncateText` and `getImageUrl`. */
module Utils {
  import opened Wrappers
  import opened Text

  // ---------------------------------------------------------------------
  // formatTime

  /** The longest digit string read here: every number of at most 15
      decimal digits is below 2^53, so `Number` reads it exactly and
      `toString` writes it back without an exponent. */
  const MaxClockDigits: nat := 15

  /** A digit string `Number` reads exactly (an empty one reads as 0, as
      `Number("")` does). */
  predicate ExactDigits(s: string) {
    AllDigits(s) && |s| <= MaxClockDigits
  }

  /** A 24-hour clock value is read when the string has a ':' and both of
      the first two pieces are exactly readable digit strings. Pieces after
      the second are ignored. */
  predicate DigitClock(t: string) {
    ':' in t && ExactDigits(Split(t, ':')[0]) && ExactDigits(Split(t, ':')[1])
  }

  function Hours(t: string): nat
    requires DigitClock(t)
  {
    DigitsValue(Split(t, ':')[0])
  }

  function Minutes(t: string): nat
    requires DigitClock(t)
  {
    DigitsValue(Split(t, ':')[1])
  }

  /** `hours >= 12 ? 'PM' : 'AM'`. */
  function Period(hours: nat): string {
    if hours >= 12 then "PM" else "AM"
  }

  /** `hours % 12 || 12`: a remainder of 0 shows as 12. */
  function TwelveHour(hours: nat): (h: nat)
    ensures 1 <= h <= 12
    ensures h % 12 == hours % 12
  {
    if hours % 12 == 0 then 12 else hours % 12
  }

  /** On a day's hours the 12-hour form and the period determine the hour:
      0 is 12 AM, 12 is 12 PM. */
  lemma {:induction false} TwelveHourRecoversHour(hours: nat)
    requires hours < 24
    ensures hours == TwelveHour(hours) % 12 + (if Period(hours) == "PM" then 12 else 0)
  {
  }

  /** `formatTime(t)`: "h:mm AM" or "h:mm PM" from "HH:MM". Without a ':'
      the destructured `minutes` is `undefined`, `minutes.toString()`
      throws, and the catch returns the input unchanged. */
  function FormatTime(t: string): (r: string)
    requires ':' in t ==> DigitClock(t)
    ensures ':' !in t ==> r == t
    ensures ':' in t ==> |r| >= 7 && r[|r| - 3..] == " " + Period(Hours(t))
  {
    if ':' !in t then t
    else
      var hours, minutes := Hours(t), Minutes(t);
      ShowNat(TwelveHour(hours)) + ":" + PadStart(ShowNat(minutes), 2, '0') + " " + Period(hours)
  }

  /** A decimal form as `padStart(width, '0')` leaves it: digits only, at
      least `width` of them, and a leading zero only where it pads up to
      `width`. */
  predicate ZeroPadded(d: string, width: nat) {
    AllDigits(d) && |d| >= width && (|d| > width ==> d[0] != '0')
  }

  /** Reads a displayed time back into the hour, the minutes and whether
      the period is PM. Only the shape "h:mm P" is accepted: an hour
      without a leading zero, minutes of at least two digits with a zero
      only to fill them up to two, one space and "AM" or "PM". */
  function ReadDisplay(r: string): Option<(nat, nat, bool)> {
    var halves := Split(r, ' ');
    if |halves| != 2 || (halves[1] != "AM" && halves[1] != "PM") then None
    else
      var clock := Split(halves[0], ':');
      if |clock| != 2 || !ZeroPadded(clock[0], 1) || !ZeroPadded(clock[1], 2) then None
      else Some((DigitsValue(clock[0]), DigitsValue(clock[1]), halves[1] == "PM"))
  }

  /** The display has the shape "h:mm P" and can be read back: its hour is
      the 12-hour form, its minutes are the input's minutes (the zero
      padding reads away), and its period is PM exactly when the hours are
      at least 12. */
  lemma {:induction false} FormatTimeReadsBack(t: string)
    requires DigitClock(t)
    ensures ReadDisplay(FormatTime(t)) == Some((TwelveHour(Hours(t)), Minutes(t), Hours(t) >= 12))
  {
    var hours, minutes := Hours(t), Minutes(t);
    ReadShowNat(TwelveHour(hours));
    PaddedReadsBack(minutes);
    DisplayReadsBack(ShowNat(TwelveHour(hours)), PadStart(ShowNat(minutes), 2, '0'), Period(hours));
  }

  /** Padding a decimal form to two digits gives a zero-padded form of the
      same value. */
  lemma {:induction false} PaddedReadsBack(n: nat)
    ensures ZeroPadded(PadStart(ShowNat(n), 2, '0'), 2)
    ensures DigitsValue(PadStart(ShowNat(n), 2, '0')) == n
  {
    var digits := ShowNat(n);
    var b := PadStart(digits, 2, '0');
    var z := b[..|b| - |digits|];
    assert b == z + digits;
    ReadLeadingZeros(z, digits);
    ReadShowNat(n);
  }

  lemma {:induction false} DisplayReadsBack(a: string, b: string, p: string)
    requires ZeroPadded(a, 1) && ZeroPadded(b, 2) && (p == "AM" || p == "PM")
    ensures ReadDisplay(a + ":" + b + " " + p) == Some((DigitsValue(a), DigitsValue(b), p == "PM"))
  {
    var clock := a + ":" + b;
    assert ':' !in a && ':' !in b by {
      assert forall i :: 0 <= i < |a| ==> a[i] != ':';
      assert forall i :: 0 <= i < |b| ==> b[i] != ':';
    }
    assert Join([a, b], ':') == clock;
    SplitJoin([a, b], ':');
    assert ' ' !in clock by {
      forall i | 0 <= i < |clock|
        ensures clock[i] != ' '
      {
        if i < |a| { assert clock[i] == a[i]; }
        else if i > |a| { assert clock[i] == b[i - |a| - 1]; }
      }
    }
    assert ' ' !in p;
    assert Join([clock, p], ' ') == clock + " " + p;
    SplitJoin([clock, p], ' ');
  }

  // ---------------------------------------------------------------------
  // truncateText

  const DefaultMaxLength: int := 150
  const Ellipsis: string := "..."

  /** `truncateText(text, maxLength)`: text longer than `maxLength` is cut
      with `slice(0, maxLength)` and "..." appended. */
  function TruncateText(text: string, maxLength: int): (r: string)
    ensures |text| <= maxLength ==> r == text
    ensures |text| > maxLength ==> |r| >= 3 && r[|r| - 3..] == Ellipsis
    ensures |text| > maxLength >= 0 ==> |r| == maxLength + 3 && r[..maxLength] == text[..maxLength]
    ensures |text| > maxLength ==> StartsWith(text, r[..|r| - 3])
    ensures |text| > maxLength && maxLength < 0 ==>
              |r| == (if |text| + maxLength < 0 then 0 else |text| + maxLength) + 3
  {
    if |text| <= maxLength then text
    else
      var cut := SliceTo(text, maxLength);
      assert (cut + Ellipsis)[..|cut|] == cut;
      assert (cut + Ellipsis)[|cut|..] == Ellipsis;
      cut + Ellipsis
  }

  /** `truncateText(text)` with the default limit. */
  function TruncateDefault(text: string): (r: string)
    ensures |text| <= DefaultMaxLength ==> r == text
    ensures |r| <= DefaultMaxLength + 3
    ensures |text| > DefaultMaxLength ==> |r| == DefaultMaxLength + 3 && r[..DefaultMaxLength] == text[..DefaultMaxLength]
  {
    TruncateText(text, DefaultMaxLength)
  }

  /** Truncating twice with the same non-negative limit is truncating once:
      the second cut removes exactly the "..." the first one added. */
  lemma {:induction false} TruncateIdempotent(text: string, maxLength: int)
    requires maxLength >= 0
    ensures TruncateText(TruncateText(text, maxLength), maxLength) == TruncateText(text, maxLength)
  {
    var r := TruncateText(text, maxLength);
    if |text| > maxLength {
      assert r[..maxLength] == text[..maxLength];
    }
  }

  // ---------------------------------------------------------------------
  // getImageUrl

  const PlaceholderBase: string := "https://via.placeholder.com/400x300?text="
  const Placeholder: string := PlaceholderBase + "Devine+Senior+Living"

  /** `!path`: `null`, `undefined` and the empty string. */
  predicate Falsy(path: Maybe<string>) {
    !path.Defined? || path.value == ""
  }

  /** `getImageUrl(path)`; `encode` stands for `encodeURIComponent`. */
  function GetImageUrl(path: Maybe<string>, encode: string -> string): (r: string)
    ensures Falsy(path) ==> r == Placeholder
    ensures !Falsy(path) && StartsWith(path.value, "http") ==> r == path.value
    ensures !Falsy(path) && !StartsWith(path.value, "http") ==> r == PlaceholderBase + encode(path.value)
  {
    if Falsy(path) then Placeholder
    else if StartsWith(path.value, "http") then path.value
    else PlaceholderBase + encode(path.value)
  }

  /** Every result is an absolute "http" URL, so feeding a result back in
      returns it unchanged. */
  lemma {:induction false} GetImageUrlIdempotent(path: Maybe<string>, encode: string -> string)
    ensures StartsWith(GetImageUrl(path, encode), "http")
    ensures GetImageUrl(Defined(GetImageUrl(path, encode)), encode) == GetImageUrl(path, encode)
  {
    var r := GetImageUrl(path, encode);
    assert PlaceholderBase[0] == 'h' && PlaceholderBase[1] == 't' && PlaceholderBase[2] == 't' && PlaceholderBase[3] == 'p';
    assert PlaceholderBase[..4] == "http";
    if !Falsy(path) && !StartsWith(path.value, "http") {
      assert r[..4] == PlaceholderBase[..4];
    } else if Falsy(path) {
      assert r[..4] == PlaceholderBase[..4];
    }
  }
}
