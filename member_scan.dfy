/**
 * POST of app/api/member/scan/route.ts: staff scan a member's QR card.
 * The payload is looked up as stored; failing that, the email is read out
 * of one of the two payload layouts and the member found by email gets the
 * scanned payload stored, so that the next scan finds it directly.
 */
module MemberScan {
  import opened Wrappers
  import opened Strings
  import opened Seqs
  import opened Types
  import opened Http
  import opened Store
  import QrData

  const QrRequired := "QR data diperlukan"
  const NotFound := "User tidak ditemukan"
  const LegacyPrefix := "USER"

  /** The 200 body. */
  datatype MemberCard = MemberCard(id: string, namaLengkap: string, email: string, saldo: int)

  function Card(u: User): (c: MemberCard)
    ensures c.id == u.id && c.email == u.email && c.saldo == SaldoOf(u)
    ensures c.namaLengkap == u.namaLengkap
  {
    MemberCard(u.id, u.namaLengkap, u.email, SaldoOf(u))
  }

  /** The first member whose stored payload is `qr`. */
  function FindByQr(users: seq<User>, qr: string): (r: Option<nat>)
    ensures r.Some? ==> r.value < |users| && users[r.value].role == Pengguna && users[r.value].qrData == Some(qr)
    ensures r.Some? ==> forall k :: 0 <= k < r.value ==> !(users[k].role == Pengguna && users[k].qrData == Some(qr))
    ensures r.None? ==> forall k :: 0 <= k < |users| ==> !(users[k].role == Pengguna && users[k].qrData == Some(qr))
  {
    FirstIndex(users, (u: User) => u.role == Pengguna && u.qrData == Some(qr))
  }

  /** The first member registered with `email`. */
  function FindByEmail(users: seq<User>, email: string): (r: Option<nat>)
    ensures r.Some? ==> r.value < |users| && users[r.value].role == Pengguna && users[r.value].email == email
    ensures r.Some? ==> forall k :: 0 <= k < r.value ==> !(users[k].role == Pengguna && users[k].email == email)
    ensures r.None? ==> forall k :: 0 <= k < |users| ==> !(users[k].role == Pengguna && users[k].email == email)
  {
    FirstIndex(users, (u: User) => u.role == Pengguna && u.email == email)
  }

  /**
   * The email inside a payload: `USER-<stamp>-<email>` keeps everything after
   * the second dash, `BANKSAMPAH-<email>-<stamp>` everything between the first
   * and the last dash; either needs at least three dash-separated pieces.
   */
  function ExtractEmail(qr: string): (r: Option<string>)
    ensures r.Some? <==>
      (StartsWith(qr, LegacyPrefix + "-") || StartsWith(qr, QrData.Prefix + "-")) && |Split(qr, '-')| >= 3
  {
    var parts := Split(qr, '-');
    if StartsWith(qr, LegacyPrefix + "-") then
      if |parts| >= 3 then Some(Join(parts[2..], '-')) else None
    else if StartsWith(qr, QrData.Prefix + "-") then
      if |parts| >= 3 then Some(Join(parts[1..|parts| - 1], '-')) else None
    else None
  }

  /** Every payload the user-creating routes store yields its own email back, dashes and all. */
  lemma {:induction false} ExtractEmailOfBuilt(email: string, now: nat)
    ensures ExtractEmail(QrData.Build(email, now)) == Some(email)
  {
    var qr := QrData.Build(email, now);
    QrData.BuildSplits(email, now);
    var parts := Split(qr, '-');
    assert qr[0] == 'B';
    assert !StartsWith(qr, LegacyPrefix + "-");
    assert parts[1..|parts| - 1] == Split(email, '-');
    JoinSplit(email, '-');
  }

  /** Split on '-', an older payload is the prefix, the stamp, then the pieces of the email. */
  lemma LegacySplits(stamp: string, email: string)
    requires '-' !in stamp
    ensures Split(LegacyPrefix + "-" + stamp + "-" + email, '-') == [LegacyPrefix, stamp] + Split(email, '-')
  {
    assert LegacyPrefix + "-" + stamp + "-" + email == LegacyPrefix + ['-'] + (stamp + ['-'] + email);
    SplitWithoutSep(LegacyPrefix, '-');
    SplitAround(LegacyPrefix, stamp + ['-'] + email, '-');
    SplitWithoutSep(stamp, '-');
    SplitAround(stamp, email, '-');
  }

  /** The older `USER-<stamp>-<email>` layout yields its email as well, when the stamp has no dash. */
  lemma {:induction false} ExtractEmailOfLegacy(stamp: string, email: string)
    requires '-' !in stamp
    ensures ExtractEmail(LegacyPrefix + "-" + stamp + "-" + email) == Some(email)
  {
    var qr := LegacyPrefix + "-" + stamp + "-" + email;
    LegacySplits(stamp, email);
    assert StartsWith(qr, LegacyPrefix + "-");
    assert Split(qr, '-')[2..] == Split(email, '-');
    JoinSplit(email, '-');
  }

  /** Storing the scanned payload on a member makes it the member the next scan finds first. */
  lemma HealedPayloadIsFoundDirectly(users: seq<User>, k: nat, qr: string)
    requires FindByQr(users, qr).None? && k < |users| && users[k].role == Pengguna
    ensures FindByQr(users[k := users[k].(qrData := Some(qr))], qr) == Some(k)
  {
    var users' := users[k := users[k].(qrData := Some(qr))];
    assert users'[k].role == Pengguna && users'[k].qrData == Some(qr);
    assert forall j :: 0 <= j < |users| && j != k ==> users'[j] == users[j];
  }

  /**
   * Found by payload: nothing changes. Found by the email read from the
   * payload: that member's stored payload becomes the scanned one (the
   * write is skipped when it already is). The card shows the row as read.
   */
  method Post(db: Db, caller: Caller, qr: Option<string>) returns (r: Reply<MemberCard>)
    requires caller.role != Pengguna
    modifies db`users
    ensures !Present(qr) ==> r == Fail(400, QrRequired) && db.users == old(db.users)
    ensures Present(qr) && FindByQr(old(db.users), qr.value).Some? ==>
      r == Ok(200, Card(old(db.users)[FindByQr(old(db.users), qr.value).value])) && db.users == old(db.users)
    ensures Present(qr) && FindByQr(old(db.users), qr.value).None? ==>
      var e := ExtractEmail(qr.value);
      if Present(e) && FindByEmail(old(db.users), e.value).Some? then
        var k := FindByEmail(old(db.users), e.value).value;
        && r == Ok(200, Card(old(db.users)[k]))
        && db.users == old(db.users)[k := old(db.users)[k].(qrData := qr)]
      else
        r == Fail(404, NotFound) && db.users == old(db.users)
  {
    if !Present(qr) {
      return Fail(400, QrRequired);
    }
    var payload := qr.value;
    var byQr := FindByQr(db.users, payload);
    if byQr.Some? {
      return Ok(200, Card(db.users[byQr.value]));
    }
    var extracted := ExtractEmail(payload);
    if Present(extracted) {
      var byEmail := FindByEmail(db.users, extracted.value);
      if byEmail.Some? {
        var k := byEmail.value;
        var member := db.users[k];
        if member.qrData != Some(payload) {
          db.users := db.users[k := member.(qrData := Some(payload))];
        }
        return Ok(200, Card(member));
      }
    }
    r := Fail(404, NotFound);
  }
}
