/** POST of app/api/setoran/create/route.ts: a member submits a deposit. */
module SetoranCreate {
  import opened Wrappers
  import opened Types
  import opened Http
  import opened Store

  const IncompleteData := "Data tidak lengkap"

  /**
   * Both fields must be truthy; `metode` is not checked against the two
   * methods of lib/types.ts. The deposit is stored pending, owned by the
   * caller, and no balance or other deposit changes.
   */
  method Post(db: Db, caller: Caller, jenisSampah: Option<string>, metode: Option<string>, env: Env)
    returns (r: Reply<Setoran>)
    modifies db`setoran
    ensures !Present(jenisSampah) || !Present(metode) ==>
      r == Fail(400, IncompleteData) && db.setoran == old(db.setoran)
    ensures Present(jenisSampah) && Present(metode) ==>
      && r.Ok? && r.status == 201
      && db.setoran == old(db.setoran) + [r.value]
      && r.value.id == env.id
      && r.value.userId == caller.id
      && r.value.jenisSampah == jenisSampah.value
      && r.value.metode == metode.value
      && r.value.status == SetoranPending
      && r.value.tanggalSetor == env.now
      && Unvalidated(r.value)
  {
    if !Present(jenisSampah) || !Present(metode) {
      return Fail(400, IncompleteData);
    }
    var s := Setoran(env.id, caller.id, jenisSampah.value, None, None, None, metode.value,
                     SetoranPending, None, env.now, None);
    db.setoran := db.setoran + [s];
    r := Ok(201, s);
  }

  /** Any non-empty method string is admitted, including one no enumeration value names. */
  method AnyMetodeAdmitted(db: Db, caller: Caller, env: Env) returns (r: Reply<Setoran>)
    modifies db`setoran
    ensures r.Ok? && r.value.metode == "courier" && ParseMetode(r.value.metode).None?
  {
    r := Post(db, caller, Some("Plastik"), Some("courier"), env);
  }
}
