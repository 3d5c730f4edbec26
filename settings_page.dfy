/**
 * The two pure pieces of app/dashboard/settings/page.tsx: the WhatsApp
 * number formatter applied while typing, and the digit stripping applied
 * to the value sent on save.
 */
module SettingsPage {
  import opened Strings

  const CountryCode := "62"

  /** `formatPhoneNumber`: the digits, with the Indonesian country code in front. */
  function FormatPhoneNumber(value: string): (r: string)
    ensures AllDigits(r)
    ensures StartsWith(r, CountryCode)
  {
    var numbers := DigitsOnly(value);
    if StartsWith(numbers, "0") then CountryCode + numbers[1..]
    else if !StartsWith(numbers, CountryCode) then CountryCode + numbers
    else numbers
  }

  /**
   * The national number is kept: a trunk 0 gives way to 62, a number that
   * already starts with 62 is left alone, and any other number (the empty one
   * too) gets 62 in front.
   */
  lemma FormatPhoneNumberKeepsNumber(value: string)
    ensures var d := DigitsOnly(value); var r := FormatPhoneNumber(value);
      && (StartsWith(d, "0") ==> r[2..] == d[1..] && |r| == |d| + 1)
      && (StartsWith(d, CountryCode) ==> r == d)
      && (!StartsWith(d, "0") && !StartsWith(d, CountryCode) ==> r[2..] == d && |r| == |d| + 2)
  {
    var d := DigitsOnly(value);
    if StartsWith(d, "0") {
      assert !StartsWith(d, CountryCode) by {
        assert d[0] == '0';
      }
    }
  }

  lemma FormatPhoneNumberOfEmpty()
    ensures FormatPhoneNumber("") == CountryCode
  {
  }

  /** Formatting an already formatted number changes nothing. */
  lemma FormatPhoneNumberIdempotent(value: string)
    ensures FormatPhoneNumber(FormatPhoneNumber(value)) == FormatPhoneNumber(value)
  {
    var r := FormatPhoneNumber(value);
    assert DigitsOnly(r) == r;
    assert !StartsWith(r, "0") by {
      assert r[0] == '6';
    }
  }

  /** The value sent on save: `csWhatsapp.replace(/\D/g, '')`. */
  function SaveValue(csWhatsapp: string): (r: string)
    ensures AllDigits(r) && |r| <= |csWhatsapp|
    // every digit typed is kept, as often as typed, and nothing else is
    ensures forall c :: multiset(r)[c] == if IsDigit(c) then multiset(csWhatsapp)[c] else 0
  {
    DigitsOnlyCounts(csWhatsapp);
    DigitsOnly(csWhatsapp)
  }

  /** The digits are kept in the order they were typed: saving commutes with concatenation. */
  lemma SaveValueKeepsOrder(a: string, b: string)
    ensures SaveValue(a + b) == SaveValue(a) + SaveValue(b)
  {
    DigitsOnlyAppend(a, b);
  }

  /** A number produced by the formatter is saved exactly as shown. */
  lemma SaveValueOfFormatted(value: string)
    ensures SaveValue(FormatPhoneNumber(value)) == FormatPhoneNumber(value)
  {
  }
}
