/** POST of app/api/pencairan/request/route.ts: a member asks to cash out. */
module PencairanRequest {
  import opened Wrappers
  import opened Types
  import opened Http
  import opened Store

  const InvalidNominal := "Nominal tidak valid"
  const UserNotFound := "User tidak ditemukan"
  const InsufficientSaldo := "Saldo tidak mencukupi"

  datatype Admission = Admitted | Refused(status: int, error: string)

  /**
   * The checks in order: a positive amount, a known caller, and a
   * balance (missing counts as 0) of at least the amount. Pending
   * requests are not taken into account.
   */
  function Admit(nominal: Option<int>, account: Option<User>): (a: Admission)
    ensures a.Admitted? <==> nominal.Some? && nominal.value > 0 && account.Some? && SaldoOf(account.value) >= nominal.value
    ensures (nominal.None? || nominal.value <= 0) ==> a == Refused(400, InvalidNominal)
    ensures nominal.Some? && nominal.value > 0 && account.None? ==> a == Refused(404, UserNotFound)
    ensures nominal.Some? && nominal.value > 0 && account.Some? && SaldoOf(account.value) < nominal.value ==>
      a == Refused(400, InsufficientSaldo)
  {
    if nominal.None? || nominal.value <= 0 then Refused(400, InvalidNominal)
    else if account.None? then Refused(404, UserNotFound)
    else if account.value.saldo.GetOr(0) < nominal.value then Refused(400, InsufficientSaldo)
    else Admitted
  }

  /** Requesting exactly the balance is admitted; one unit more is refused. */
  lemma BalanceBoundIsInclusive(u: User)
    requires SaldoOf(u) > 0
    ensures Admit(Some(SaldoOf(u)), Some(u)).Admitted?
    ensures Admit(Some(SaldoOf(u) + 1), Some(u)) == Refused(400, InsufficientSaldo)
  {
  }

  /**
   * On admission one pending request for exactly `nominal` is stored for
   * the caller; the user table, and so every balance, is untouched.
   */
  method Post(db: Db, caller: Caller, nominal: Option<int>, env: Env) returns (r: Reply<Pencairan>)
    modifies db`pencairan
    ensures Admit(nominal, FindUser(db.users, caller.id)).Refused? ==>
      && r == Fail(Admit(nominal, FindUser(db.users, caller.id)).status, Admit(nominal, FindUser(db.users, caller.id)).error)
      && db.pencairan == old(db.pencairan)
    ensures Admit(nominal, FindUser(db.users, caller.id)).Admitted? ==>
      && r == Ok(201, Pencairan(env.id, caller.id, nominal.value, PencairanPending, None, env.now, None, None))
      && db.pencairan == old(db.pencairan) + [r.value]
  {
    var account := FindUser(db.users, caller.id);
    var a := Admit(nominal, account);
    if a.Refused? {
      return Fail(a.status, a.error);
    }
    var p := Pencairan(env.id, caller.id, nominal.value, PencairanPending, None, env.now, None, None);
    db.pencairan := db.pencairan + [p];
    r := Ok(201, p);
  }

  /**
   * Two requests each within the balance are both admitted even when
   * together they exceed it: admission does not reserve the amount.
   */
  method RequestTwice(db: Db, caller: Caller, n1: int, n2: int, e1: Env, e2: Env)
    returns (r1: Reply<Pencairan>, r2: Reply<Pencairan>)
    requires FindUser(db.users, caller.id).Some?
    requires 0 < n1 <= SaldoOf(FindUser(db.users, caller.id).value)
    requires 0 < n2 <= SaldoOf(FindUser(db.users, caller.id).value)
    modifies db`pencairan
    ensures r1.Ok? && r2.Ok?
    ensures db.pencairan == old(db.pencairan) + [r1.value, r2.value]
  {
    r1 := Post(db, caller, Some(n1), e1);
    r2 := Post(db, caller, Some(n2), e2);
  }
}
