/**
 * The QR payload every user-creating route stores in `qr_data`:
 * `BANKSAMPAH-<email>-<Date.now()>` (app/api/auth/register/route.ts:33,
 * app/api/member/create/route.ts:70, app/api/member/import/route.ts:83).
 */
module QrData {
  import opened Strings

  const Prefix := "BANKSAMPAH"

  function Build(email: string, now: nat): (qr: string)
    ensures StartsWith(qr, Prefix + "-")
  {
    Prefix + "-" + email + "-" + NatToString(now)
  }

  /** The payload is the prefix, a dash, then the email and the stamp joined by a dash. */
  lemma BuildShape(email: string, now: nat)
    ensures Build(email, now) == Prefix + ['-'] + (email + ['-'] + NatToString(now))
  {
  }

  /** A dash-free stamp after the email adds exactly one piece. */
  lemma EmailThenStamp(email: string, t: string)
    requires '-' !in t
    ensures Split(email + ['-'] + t, '-') == Split(email, '-') + [t]
  {
    SplitWithoutSep(t, '-');
    SplitAround(email, t, '-');
  }

  /** The dash-free prefix before the rest is exactly one piece. */
  lemma PrefixThenRest(rest: string)
    ensures Split(Prefix + ['-'] + rest, '-') == [Prefix] + Split(rest, '-')
  {
    SplitWithoutSep(Prefix, '-');
    SplitAround(Prefix, rest, '-');
  }

  /** Split on '-', the payload is the prefix, the pieces of the email, then the stamp. */
  lemma {:induction false} BuildSplits(email: string, now: nat)
    ensures Split(Build(email, now), '-') == [Prefix] + Split(email, '-') + [NatToString(now)]
  {
    var t := NatToString(now);
    assert '-' !in t;  // the clock reading is all digits
    BuildShape(email, now);
    EmailThenStamp(email, t);
    PrefixThenRest(email + ['-'] + t);
  }
}
