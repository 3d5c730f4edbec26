/** POST of app/api/auth/register/route.ts: self-registration of a member. */
module AuthRegister {
  import opened Wrappers
  import opened Types
  import opened Http
  import opened Store
  import QrData

  const IncompleteData := "Data tidak lengkap"
  const EmailRegistered := "Email sudah terdaftar"

  datatype RegisterRequest = RegisterRequest(
    namaLengkap: Option<string>,
    email: Option<string>,
    password: Option<string>,
    noHp: Option<string>,
    kelurahan: Option<string>,
    kecamatan: Option<string>,
    kabupaten: Option<string>,
    detailAlamat: Option<string>)

  /** The 201 body: the new id and `profile_completed: false`. */
  datatype Registered = Registered(userId: string, profileCompleted: bool)

  predicate Complete(req: RegisterRequest) {
    Present(req.namaLengkap) && Present(req.email) && Present(req.password)
  }

  /**
   * Name, email and password must be truthy; a duplicate email is the
   * unique-constraint violation reported as 400. A stored member has the
   * member role, balance 0, the `BANKSAMPAH-<email>-<now>` payload, and
   * null for every empty optional field. `hash` stands for bcrypt.
   */
  method Post(db: Db, req: RegisterRequest, hash: string -> string, env: Env) returns (r: Reply<Registered>)
    modifies db`users
    ensures !Complete(req) ==> r == Fail(400, IncompleteData) && db.users == old(db.users)
    ensures Complete(req) && EmailTaken(old(db.users), req.email.value) ==>
      r == Fail(400, EmailRegistered) && db.users == old(db.users)
    ensures Complete(req) && !EmailTaken(old(db.users), req.email.value) ==>
      && r == Ok(201, Registered(env.id, false))
      && |db.users| == |old(db.users)| + 1
      && db.users[..|old(db.users)|] == old(db.users)
      && var u := db.users[|old(db.users)|];
      && u.id == env.id && u.namaLengkap == req.namaLengkap.value && u.email == req.email.value
      && u.passwordHash == hash(req.password.value)
      && u.role == Pengguna && u.saldo == Some(0) && !u.profileCompleted
      && u.qrData == Some(QrData.Build(req.email.value, env.now))
      && u.noHp == OrNull(req.noHp) && u.kelurahan == OrNull(req.kelurahan)
      && u.kecamatan == OrNull(req.kecamatan) && u.kabupaten == OrNull(req.kabupaten)
      && u.detailAlamat == OrNull(req.detailAlamat)
    ensures EmailsUnique(old(db.users)) ==> EmailsUnique(db.users)
  {
    if !Complete(req) {
      return Fail(400, IncompleteData);
    }
    var email := req.email.value;
    var qr := QrData.Build(email, env.now);
    if EmailTaken(db.users, email) {
      return Fail(400, EmailRegistered);
    }
    var u := User(env.id, req.namaLengkap.value, email, hash(req.password.value),
                  OrNull(req.noHp), OrNull(req.kelurahan), OrNull(req.kecamatan),
                  OrNull(req.kabupaten), OrNull(req.detailAlamat),
                  Pengguna, Some(qr), Some(0), false, env.now);
    db.users := db.users + [u];
    r := Ok(201, Registered(env.id, false));
  }
}
