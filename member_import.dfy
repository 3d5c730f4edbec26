/**
 * POST of app/api/member/import/route.ts: an admin imports members from
 * the first sheet of a spreadsheet. The sheet arrives already read into
 * rows; the saldo cell arrives already parsed (None where parsing gave NaN).
 */
module MemberImport {
  import opened Wrappers
  import opened Strings
  import opened Types
  import opened Http
  import opened Store
  import QrData

  const NoFile := "File tidak ditemukan"
  const NoData := "Tidak ada data di file"
  const FieldsRequired := "Nama, email, dan password wajib diisi"
  const BadEmail := "Format email tidak valid"
  const PasswordTooShort := "Password minimal 8 karakter"
  const EmailRegistered := "Email sudah terdaftar"

  datatype ImportRow = ImportRow(
    namaLengkap: Option<string>,
    email: Option<string>,
    password: Option<string>,
    noHp: Option<string>,
    saldoDefault: Option<int>)

  /** One refused row: its spreadsheet row number, its normalised email and the reason. */
  datatype RowError = RowError(row: nat, email: string, error: string)

  datatype ImportReport = ImportReport(total: nat, success: nat, failed: nat, errors: seq<RowError>)

  /** A row's cells as the loop normalises them before any check. */
  datatype Cells = Cells(nama: string, email: string, password: string, noHp: string, saldo: int)

  /**
   * Name, email and phone lose their surrounding white space (the email is
   * also lower-cased), the password is kept exactly, and a missing or
   * unparsable saldo becomes 0.
   */
  function Normalise(row: ImportRow): (c: Cells)
    ensures |c.nama| > 0 ==> !IsSpace(c.nama[0]) && !IsSpace(c.nama[|c.nama| - 1])
    ensures Contains(row.namaLengkap.GetOr(""), c.nama)
    ensures |c.email| > 0 ==> !IsSpace(c.email[0]) && !IsSpace(c.email[|c.email| - 1])
    ensures Lower(c.email) == c.email && |c.email| <= |row.email.GetOr("")|
    ensures |c.noHp| > 0 ==> !IsSpace(c.noHp[0]) && !IsSpace(c.noHp[|c.noHp| - 1])
    ensures Contains(row.noHp.GetOr(""), c.noHp)
    ensures c.password == (if row.password.Some? then row.password.value else "")
    ensures c.saldo == (if row.saldoDefault.Some? then row.saldoDefault.value else 0)
    // the trimmed cell values themselves (Trim states which slice of the cell that is)
    ensures c.nama == Trim(row.namaLengkap.GetOr(""))
    ensures c.email == Lower(Trim(row.email.GetOr("")))
    ensures c.noHp == Trim(row.noHp.GetOr(""))
  {
    var nama, email, noHp := Trim(row.namaLengkap.GetOr("")), Trim(row.email.GetOr("")), Trim(row.noHp.GetOr(""));
    LowerTrimmed(row.email.GetOr(""));
    Cells(nama, Lower(email), row.password.GetOr(""), noHp, row.saldoDefault.GetOr(0))
  }

  function NormaliseAll(rows: seq<ImportRow>): (cs: seq<Cells>)
    ensures |cs| == |rows|
    ensures forall k :: 0 <= k < |rows| ==> cs[k] == Normalise(rows[k])
  {
    if |rows| == 0 then [] else [Normalise(rows[0])] + NormaliseAll(rows[1..])
  }

  /**
   * The per-row checks in order: required fields, an '@' in the email,
   * a password of at least 8 characters, an email not yet registered
   * (including by an earlier row of the same sheet).
   */
  function RowCheck(nama: string, email: string, password: string, users: seq<User>): (r: Option<string>)
    ensures r.Some? ==> r.value in {FieldsRequired, BadEmail, PasswordTooShort, EmailRegistered}
    ensures r.None? ==> nama != "" && Contains(email, "@") && |password| >= 8 && !EmailTaken(users, email)
    ensures r == Some(EmailRegistered) ==> EmailTaken(users, email)
  {
    if nama == "" || email == "" || password == "" then Some(FieldsRequired)
    else if !Contains(email, "@") then Some(BadEmail)
    else if |password| < 8 then Some(PasswordTooShort)
    else if EmailTaken(users, email) then Some(EmailRegistered)
    else None
  }

  /** RowCheck reports the first failing check, and no failure exactly when every check passes. */
  lemma RowCheckFirstFailure(nama: string, email: string, password: string, users: seq<User>)
    ensures RowCheck(nama, email, password, users).None? <==>
      nama != "" && email != "" && password != "" && Contains(email, "@") && |password| >= 8 && !EmailTaken(users, email)
    ensures (nama == "" || email == "" || password == "") ==> RowCheck(nama, email, password, users) == Some(FieldsRequired)
    ensures (nama != "" && email != "" && password != "" && !Contains(email, "@")) ==> RowCheck(nama, email, password, users) == Some(BadEmail)
    ensures (nama != "" && email != "" && password != "" && Contains(email, "@") && |password| < 8) ==>
      RowCheck(nama, email, password, users) == Some(PasswordTooShort)
    ensures (nama != "" && email != "" && password != "" && Contains(email, "@") && |password| >= 8
             && EmailTaken(users, email)) ==> RowCheck(nama, email, password, users) == Some(EmailRegistered)
  {
  }

  /** The user a passing row creates. */
  function NewUser(c: Cells, env: Env, hash: string -> string): (u: User)
    ensures u.role == Pengguna && !u.profileCompleted && u.email == c.email
    ensures u.id == env.id && u.createdAt == env.now
    ensures u.namaLengkap == c.nama && u.passwordHash == hash(c.password)
    ensures u.saldo == Some(c.saldo)
    // `no_hp || null`: an empty phone cell is stored as null
    ensures u.noHp.None? <==> c.noHp == ""
    ensures u.noHp.Some? ==> u.noHp.value == c.noHp
    ensures u.qrData == Some(QrData.Build(c.email, env.now))
    ensures u.kelurahan.None? && u.kecamatan.None? && u.kabupaten.None? && u.detailAlamat.None?
  {
    User(env.id, c.nama, c.email, hash(c.password), OrNull(Some(c.noHp)), None, None, None, None,
         Pengguna, Some(QrData.Build(c.email, env.now)), Some(c.saldo), false, env.now)
  }

  /** The loop's state: the user table, the created emails and the refused rows. */
  datatype State = State(users: seq<User>, successes: seq<string>, errors: seq<RowError>)

  /** The row at index `i`, reported as spreadsheet row `i + 2` (row 1 is the header). */
  function Step(st: State, c: Cells, i: nat, env: Env, hash: string -> string): (r: State)
    // exactly one of: a refused row reported, or a user created and its email recorded
    ensures |r.successes| + |r.errors| == |st.successes| + |st.errors| + 1
    ensures |r.users| - |st.users| == |r.successes| - |st.successes|
    ensures RowCheck(c.nama, c.email, c.password, st.users).None? ==>
      && r.users == st.users + [NewUser(c, env, hash)]
      && r.successes == st.successes + [c.email]
      && r.errors == st.errors
    ensures RowCheck(c.nama, c.email, c.password, st.users).Some? ==>
      && r.users == st.users && r.successes == st.successes
      && r.errors == st.errors + [RowError(i + 2, c.email, RowCheck(c.nama, c.email, c.password, st.users).value)]
  {
    var e := RowCheck(c.nama, c.email, c.password, st.users);
    if e.Some? then st.(errors := st.errors + [RowError(i + 2, c.email, e.value)])
    else st.(users := st.users + [NewUser(c, env, hash)], successes := st.successes + [c.email])
  }

  /** The state after the loop has processed the normalised rows `rows`. */
  function Run(st: State, rows: seq<Cells>, envs: seq<Env>, hash: string -> string): (r: State)
    requires |envs| == |rows|
    ensures |r.successes| + |r.errors| == |st.successes| + |st.errors| + |rows|
    ensures |r.users| - |st.users| == |r.successes| - |st.successes| >= 0
  {
    if |rows| == 0 then st
    else
      var n := |rows| - 1;
      var prev := Run(st, rows[..n], envs[..n], hash);
      Step(prev, rows[n], n, envs[n], hash)
  }

  /** Rows created by the import never share an email with each other or with existing users. */
  lemma {:induction false} RunKeepsEmailsUnique(st: State, rows: seq<Cells>, envs: seq<Env>, hash: string -> string)
    requires |envs| == |rows| && EmailsUnique(st.users)
    ensures EmailsUnique(Run(st, rows, envs, hash).users)
  {
    if |rows| > 0 {
      var n := |rows| - 1;
      RunKeepsEmailsUnique(st, rows[..n], envs[..n], hash);
      var prev := Run(st, rows[..n], envs[..n], hash);
      var c := rows[n];
      if RowCheck(c.nama, c.email, c.password, prev.users).None? {
        AppendFreshEmail(prev.users, NewUser(c, envs[n], hash));
      }
    }
  }

  /**
   * The import keeps the users and emails it started from, and the user
   * created k-th is a member with an incomplete profile whose email is the
   * k-th one reported.
   */
  lemma {:induction false} RunCreatesMembers(st: State, rows: seq<Cells>, envs: seq<Env>, hash: string -> string)
    requires |envs| == |rows|
    ensures var r := Run(st, rows, envs, hash);
      && |r.users| >= |st.users| && r.users[..|st.users|] == st.users
      && |r.successes| >= |st.successes| && r.successes[..|st.successes|] == st.successes
      && forall k :: |st.users| <= k < |r.users| ==>
           && r.users[k].role == Pengguna
           && !r.users[k].profileCompleted
           && r.users[k].email == r.successes[k - |st.users| + |st.successes|]
  {
    if |rows| > 0 {
      var n := |rows| - 1;
      RunCreatesMembers(st, rows[..n], envs[..n], hash);
      var prev := Run(st, rows[..n], envs[..n], hash);
      var r := Run(st, rows, envs, hash);
      assert r == Step(prev, rows[n], n, envs[n], hash);
      var c := rows[n];
      if RowCheck(c.nama, c.email, c.password, prev.users).None? {
        assert r.users[..|st.users|] == prev.users[..|st.users|];
        assert r.successes[..|st.successes|] == prev.successes[..|st.successes|];
      }
    }
  }

  /** A step adds at most one error report, naming its own row. */
  lemma StepErrors(st: State, c: Cells, i: nat, env: Env, hash: string -> string)
    ensures var es := Step(st, c, i, env, hash).errors;
      es == st.errors || (|es| == |st.errors| + 1 && es[..|st.errors|] == st.errors && es[|st.errors|].row == i + 2)
  {
  }

  /** Error reports name rows 2 .. count + 1, in increasing order, so each row at most once. */
  predicate RowsNumbered(es: seq<RowError>, count: nat) {
    && (forall k :: 0 <= k < |es| ==> 2 <= es[k].row < count + 2)
    && (forall k, l :: 0 <= k < l < |es| ==> es[k].row < es[l].row)
  }

  lemma {:induction false} RunErrorRows(st: State, rows: seq<Cells>, envs: seq<Env>, hash: string -> string)
    requires |envs| == |rows| && |st.errors| == 0
    ensures RowsNumbered(Run(st, rows, envs, hash).errors, |rows|)
  {
    if |rows| > 0 {
      var n := |rows| - 1;
      RunErrorRows(st, rows[..n], envs[..n], hash);
      var prev := Run(st, rows[..n], envs[..n], hash);
      StepErrors(prev, rows[n], n, envs[n], hash);
      var es := Step(prev, rows[n], n, envs[n], hash).errors;
      assert es == Run(st, rows, envs, hash).errors;
      if es != prev.errors {
        assert es == prev.errors + [es[|prev.errors|]];
      }
    }
  }

  lemma RunSnoc(st: State, cs: seq<Cells>, envs: seq<Env>, c: Cells, env: Env, hash: string -> string)
    requires |envs| == |cs|
    ensures Run(st, cs + [c], envs + [env], hash) == Step(Run(st, cs, envs, hash), c, |cs|, env, hash)
  {
    assert (cs + [c])[..|cs|] == cs && (envs + [env])[..|cs|] == envs;
  }

  /** One pass of the loop body: check the row and either report it or create its user. */
  method ImportOne(db: Db, c: Cells, i: nat, env: Env, hash: string -> string,
                   successes: seq<string>, errors: seq<RowError>)
    returns (successes': seq<string>, errors': seq<RowError>)
    modifies db`users
    ensures State(db.users, successes', errors') == Step(State(old(db.users), successes, errors), c, i, env, hash)
  {
    successes', errors' := successes, errors;
    var e := RowCheck(c.nama, c.email, c.password, db.users);
    if e.Some? {
      errors' := errors + [RowError(i + 2, c.email, e.value)];
    } else {
      db.users := db.users + [NewUser(c, env, hash)];
      successes' := successes + [c.email];
    }
  }

  /** The loop over the normalised rows. */
  method ImportAll(db: Db, cells: seq<Cells>, envs: seq<Env>, hash: string -> string)
    returns (successes: seq<string>, errors: seq<RowError>)
    requires |envs| == |cells|
    modifies db`users
    ensures State(db.users, successes, errors) == Run(State(old(db.users), [], []), cells, envs, hash)
  {
    ghost var init := State(db.users, [], []);
    successes, errors := [], [];
    for i := 0 to |cells|
      invariant Run(init, cells[..i], envs[..i], hash) == State(db.users, successes, errors)
    {
      assert cells[..i + 1] == cells[..i] + [cells[i]] && envs[..i + 1] == envs[..i] + [envs[i]];
      RunSnoc(init, cells[..i], envs[..i], cells[i], envs[i], hash);
      successes, errors := ImportOne(db, cells[i], i, envs[i], hash, successes, errors);
    }
    assert cells[..|cells|] == cells && envs[..|cells|] == envs;
  }

  method Post(db: Db, caller: Caller, file: Option<seq<ImportRow>>, hash: string -> string, envs: seq<Env>)
    returns (r: Reply<ImportReport>)
    requires caller.role == Admin
    requires file.Some? ==> |envs| == |file.value|
    modifies db`users
    ensures file.None? ==> r == Fail(400, NoFile) && db.users == old(db.users)
    ensures file == Some([]) ==> r == Fail(400, NoData) && db.users == old(db.users)
    ensures file.Some? && |file.value| > 0 ==>
      && var st := Run(State(old(db.users), [], []), NormaliseAll(file.value), envs, hash);
      && db.users == st.users
      && r == Ok(200, ImportReport(|file.value|, |st.successes|, |st.errors|, st.errors))
      && r.value.success + r.value.failed == r.value.total
  {
    if file.None? {
      return Fail(400, NoFile);
    }
    var rows := file.value;
    if |rows| == 0 {
      return Fail(400, NoData);
    }
    var successes, errors := ImportAll(db, NormaliseAll(rows), envs, hash);
    r := Ok(200, ImportReport(|rows|, |successes|, |errors|, errors));
  }
}
