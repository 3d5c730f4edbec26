/** POST of app/api/profile/complete/route.ts: a member fills in contact and address data. */
module ProfileComplete {
  import opened Wrappers
  import opened Types
  import opened Http
  import opened Store

  const MembersOnly := "Hanya member yang perlu melengkapi profil"

  datatype ProfileRequest = ProfileRequest(
    noHp: Option<string>,
    kelurahan: Option<string>,
    kecamatan: Option<string>,
    kabupaten: Option<string>,
    detailAlamat: Option<string>)

  /** The selected columns of the updated row, with the balance read as 0 when null. */
  datatype ProfileView = ProfileView(
    id: string, namaLengkap: string, email: string, role: Role, saldo: int, profileCompleted: bool)

  /** The row after the update: the five fields, null when empty, and the completed flag. */
  function Completed(u: User, req: ProfileRequest): (c: User)
    ensures c.profileCompleted
    // `x || null`: no field is ever stored as the empty string
    ensures c.noHp != Some("") && c.kelurahan != Some("") && c.kecamatan != Some("")
    ensures c.kabupaten != Some("") && c.detailAlamat != Some("")
  {
    u.(noHp := OrNull(req.noHp), kelurahan := OrNull(req.kelurahan), kecamatan := OrNull(req.kecamatan),
       kabupaten := OrNull(req.kabupaten), detailAlamat := OrNull(req.detailAlamat), profileCompleted := true)
  }

  function View(u: User): (v: ProfileView)
    ensures v.id == u.id && v.email == u.email && v.role == u.role && v.saldo == SaldoOf(u)
    ensures v.namaLengkap == u.namaLengkap && v.profileCompleted == u.profileCompleted
  {
    ProfileView(u.id, u.namaLengkap, u.email, u.role, SaldoOf(u), u.profileCompleted)
  }

  /**
   * Completing a profile touches only the contact and address fields and the flag:
   * identity, credentials, role, balance and QR payload are kept.
   */
  lemma CompletedKeepsAccount(u: User, req: ProfileRequest)
    ensures var c := Completed(u, req);
      && c.id == u.id && c.namaLengkap == u.namaLengkap && c.email == u.email
      && c.passwordHash == u.passwordHash && c.role == u.role && c.qrData == u.qrData
      && c.saldo == u.saldo && c.createdAt == u.createdAt && c.profileCompleted
      && (Present(req.noHp) <==> c.noHp.Some?) && (c.noHp.Some? ==> c.noHp == req.noHp)
      && (Present(req.kelurahan) <==> c.kelurahan.Some?) && (c.kelurahan.Some? ==> c.kelurahan == req.kelurahan)
      && (Present(req.kecamatan) <==> c.kecamatan.Some?) && (c.kecamatan.Some? ==> c.kecamatan == req.kecamatan)
      && (Present(req.kabupaten) <==> c.kabupaten.Some?) && (c.kabupaten.Some? ==> c.kabupaten == req.kabupaten)
      && (Present(req.detailAlamat) <==> c.detailAlamat.Some?) && (c.detailAlamat.Some? ==> c.detailAlamat == req.detailAlamat)
  {
  }

  /** The reply reports the profile as completed, under the account's unchanged name, email, role and balance. */
  lemma ReplyShowsCompleted(u: User, req: ProfileRequest)
    ensures var v := View(Completed(u, req));
      && v.profileCompleted && v.id == u.id && v.namaLengkap == u.namaLengkap
      && v.email == u.email && v.role == u.role && v.saldo == SaldoOf(u)
  {
  }

  /** Sending the same form twice leaves the row as the first time. */
  lemma CompletedIdempotent(u: User, req: ProfileRequest)
    ensures Completed(Completed(u, req), req) == Completed(u, req)
  {
  }

  /** The update keeps the unique-email constraint, since no email changes. */
  lemma CompletedKeepsEmailsUnique(users: seq<User>, k: nat, req: ProfileRequest)
    requires k < |users| && EmailsUnique(users)
    ensures EmailsUnique(users[k := Completed(users[k], req)])
  {
    var users' := users[k := Completed(users[k], req)];
    assert forall i :: 0 <= i < |users| ==> users'[i].email == users[i].email;
  }

  /**
   * Only the member role may complete a profile; updating an id that is not
   * in the table is the failing update reported as 500.
   */
  method Post(db: Db, caller: Caller, req: ProfileRequest) returns (r: Reply<ProfileView>)
    modifies db`users
    ensures caller.role != Pengguna ==> r == Fail(403, MembersOnly) && db.users == old(db.users)
    ensures caller.role == Pengguna && FindUserIndex(old(db.users), caller.id).None? ==>
      r == Fail(500, InternalError) && db.users == old(db.users)
    ensures caller.role == Pengguna && FindUserIndex(old(db.users), caller.id).Some? ==>
      && var k := FindUserIndex(old(db.users), caller.id).value;
      && db.users == old(db.users)[k := Completed(old(db.users)[k], req)]
      && r == Ok(200, View(db.users[k]))
  {
    if caller.role != Pengguna {
      return Fail(403, MembersOnly);
    }
    var found := FindUserIndex(db.users, caller.id);
    if found.None? {
      return Fail(500, InternalError);
    }
    var k := found.value;
    var updated := Completed(db.users[k], req);
    db.users := db.users[k := updated];
    r := Ok(200, View(updated));
  }
}
