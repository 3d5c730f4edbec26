/** POST of app/api/member/create/route.ts: an admin creates a member or an operator. */
module MemberCreate {
  import opened Wrappers
  import opened Strings
  import opened Types
  import opened Http
  import opened Store
  import QrData

  const FieldsRequired := "Nama lengkap, email, password, dan role wajib diisi"
  const RoleRestricted := "Role hanya bisa pengguna atau pengelola"
  const PasswordTooShort := "Password minimal 8 karakter"
  const EmailRegistered := "Email sudah terdaftar"

  datatype CreateRequest = CreateRequest(
    namaLengkap: Option<string>,
    email: Option<string>,
    password: Option<string>,
    noHp: Option<string>,
    kelurahan: Option<string>,
    kecamatan: Option<string>,
    kabupaten: Option<string>,
    detailAlamat: Option<string>,
    role: Option<string>)

  /** The reply body's `user`: the selected columns of the new row. */
  datatype CreatedUser = CreatedUser(id: string, namaLengkap: string, email: string, role: Role)

  predicate FieldsPresent(req: CreateRequest) {
    Present(req.namaLengkap) && Present(req.email) && Present(req.password) && Present(req.role)
  }

  predicate AssignableRole(role: string) {
    role == "pengguna" || role == "pengelola"
  }

  /**
   * The validation chain: presence, then the role, then the password
   * length, then email uniqueness; the first failing check decides.
   */
  function Validate(req: CreateRequest, users: seq<User>): (e: Option<string>)
    ensures e.None? <==>
      && FieldsPresent(req) && AssignableRole(req.role.value)
      && |req.password.value| >= 8 && !EmailTaken(users, req.email.value)
    ensures !FieldsPresent(req) ==> e == Some(FieldsRequired)
    ensures FieldsPresent(req) && !AssignableRole(req.role.value) ==> e == Some(RoleRestricted)
    ensures FieldsPresent(req) && AssignableRole(req.role.value) && |req.password.value| < 8 ==>
      e == Some(PasswordTooShort)
    ensures (FieldsPresent(req) && AssignableRole(req.role.value) && |req.password.value| >= 8
             && EmailTaken(users, req.email.value)) ==> e == Some(EmailRegistered)
  {
    if !FieldsPresent(req) then Some(FieldsRequired)
    else if req.role.value != "pengguna" && req.role.value != "pengelola" then Some(RoleRestricted)
    else if |req.password.value| < 8 then Some(PasswordTooShort)
    else if EmailTaken(users, req.email.value) then Some(EmailRegistered)
    else None
  }

  /** An admitted role string always names a member or an operator, never an admin. */
  lemma AdmittedRoleIsNotAdmin(req: CreateRequest, users: seq<User>)
    requires Validate(req, users).None?
    ensures ParseRole(req.role.value) == Some(Pengguna) || ParseRole(req.role.value) == Some(Pengelola)
    ensures ParseRole(req.role.value) != Some(Admin)
  {
  }

  /** The check order matters: a short password for a taken email reports the password. */
  lemma {:induction false} LengthBeforeUniqueness(req: CreateRequest, users: seq<User>)
    requires FieldsPresent(req) && AssignableRole(req.role.value)
    requires |req.password.value| < 8 && EmailTaken(users, req.email.value)
    ensures Validate(req, users) == Some(PasswordTooShort)
  {
  }

  method Post(db: Db, caller: Caller, req: CreateRequest, hash: string -> string, env: Env)
    returns (r: Reply<CreatedUser>)
    requires caller.role == Admin
    modifies db`users
    ensures Validate(req, old(db.users)).Some? ==>
      r == Fail(400, Validate(req, old(db.users)).value) && db.users == old(db.users)
    ensures Validate(req, old(db.users)).None? ==>
      && var role := ParseRole(req.role.value).value;
      && r == Ok(200, CreatedUser(env.id, req.namaLengkap.value, req.email.value, role))
      && |db.users| == |old(db.users)| + 1
      && db.users[..|old(db.users)|] == old(db.users)
      && var u := db.users[|old(db.users)|];
      && u.id == env.id && u.email == req.email.value && u.role == role
      && u.namaLengkap == req.namaLengkap.value && u.createdAt == env.now
      && u.passwordHash == hash(req.password.value)
      && u.saldo == Some(0) && !u.profileCompleted
      && u.qrData == Some(QrData.Build(req.email.value, env.now))
      && u.noHp == OrNull(req.noHp) && u.kelurahan == OrNull(req.kelurahan)
      && u.kecamatan == OrNull(req.kecamatan) && u.kabupaten == OrNull(req.kabupaten)
      && u.detailAlamat == OrNull(req.detailAlamat)
    ensures EmailsUnique(old(db.users)) ==> EmailsUnique(db.users)
  {
    var e := Validate(req, db.users);
    if e.Some? {
      return Fail(400, e.value);
    }
    var role := ParseRole(req.role.value).value;
    var qr := QrData.Build(req.email.value, env.now);
    var u := User(env.id, req.namaLengkap.value, req.email.value, hash(req.password.value),
                  OrNull(req.noHp), OrNull(req.kelurahan), OrNull(req.kecamatan),
                  OrNull(req.kabupaten), OrNull(req.detailAlamat),
                  role, Some(qr), Some(0), false, env.now);
    db.users := db.users + [u];
    r := Ok(200, CreatedUser(u.id, u.namaLengkap, u.email, u.role));
  }
}
