/** GET of app/api/member/list/route.ts: the user directory for staff, newest first. */
module MemberList {
  import opened Wrappers
  import opened Strings
  import opened Seqs
  import opened Types
  import opened Http
  import opened Store

  /** The selected columns; the password hash and the QR payload are not among them. */
  datatype MemberRow = MemberRow(
    id: string, namaLengkap: string, email: string, noHp: Option<string>,
    kelurahan: Option<string>, kecamatan: Option<string>, kabupaten: Option<string>,
    detailAlamat: Option<string>, role: Role, saldo: int, profileCompleted: bool, createdAt: int)

  function Row(u: User): (m: MemberRow)
    ensures m.id == u.id && m.email == u.email && m.role == u.role && m.saldo == SaldoOf(u)
    ensures m.createdAt == u.createdAt && m.profileCompleted == u.profileCompleted
    ensures m.namaLengkap == u.namaLengkap && m.noHp == u.noHp
    ensures m.kelurahan == u.kelurahan && m.kecamatan == u.kecamatan
    ensures m.kabupaten == u.kabupaten && m.detailAlamat == u.detailAlamat
  {
    MemberRow(u.id, u.namaLengkap, u.email, u.noHp, u.kelurahan, u.kecamatan, u.kabupaten,
              u.detailAlamat, u.role, SaldoOf(u), u.profileCompleted, u.createdAt)
  }

  /** The `where` object: a role filter and a case-insensitive search term. */
  datatype Where = Where(role: Option<Role>, search: Option<string>)

  /** The term occurs in the name or the email, ignoring case. */
  predicate SearchHit(u: User, q: string) {
    Contains(Lower(u.namaLengkap), Lower(q)) || Contains(Lower(u.email), Lower(q))
  }

  predicate Matches(w: Where, u: User) {
    && (w.role.Some? ==> u.role == w.role.value)
    && (w.search.Some? ==> SearchHit(u, w.search.value))
  }

  /** An admin's `role` parameter selects a role unless it is absent, empty or `all`. */
  predicate RoleRequested(role: Option<string>) {
    Present(role) && role.value != "all"
  }

  /**
   * Which users a caller sees: staff that are not admins see members only;
   * an admin sees the requested role, or every role. A search term, when
   * given, must occur in the name or the email.
   */
  predicate VisibleTo(caller: Caller, role: Option<string>, search: Option<string>, u: User) {
    && (caller.role == Pengelola ==> u.role == Pengguna)
    && (caller.role == Admin && RoleRequested(role) ==> u.role.Name() == role.value)
    && (Present(search) ==> SearchHit(u, search.value))
  }

  /** `orderBy: { created_at: 'desc' }`. */
  predicate NewerOrSame(a: User, b: User) {
    a.createdAt >= b.createdAt
  }

  lemma NewerOrSameIsOrder()
    ensures TotalPreorder(NewerOrSame)
  {
  }

  function FindMany(xs: seq<User>, w: Where): (r: seq<User>)
    ensures forall u :: multiset(r)[u] == if Matches(w, u) then multiset(xs)[u] else 0
    ensures forall i :: 0 <= i < |r| ==> r[i] in xs && Matches(w, r[i])
    ensures forall i, j :: 0 <= i < j < |r| ==> r[i].createdAt >= r[j].createdAt
  {
    NewerOrSameIsOrder();
    var keep := u => Matches(w, u);
    FilterCounts(xs, keep);
    var r := Sort(Filter(xs, keep), NewerOrSame);
    assert forall i :: 0 <= i < |r| ==> r[i] in multiset(r);
    r
  }

  function Rows(us: seq<User>): (out: seq<MemberRow>)
    ensures |out| == |us| && forall i :: 0 <= i < |us| ==> out[i] == Row(us[i])
  {
    seq(|us|, i requires 0 <= i < |us| => Row(us[i]))
  }

  /** A role filter names one of the three roles; any other value makes the query fail. */
  function RoleSelected(caller: Caller, role: Option<string>): (r: Option<Option<Role>>)
    requires caller.role != Pengguna
    ensures caller.role == Pengelola ==> r == Some(Some(Pengguna))
    ensures caller.role == Admin && !RoleRequested(role) ==> r == Some(None)
    ensures caller.role == Admin && RoleRequested(role) ==> r == (match ParseRole(role.value)
      case None => None
      case Some(x) => Some(Some(x)))
  {
    if caller.role == Pengelola then Some(Some(Pengguna))
    else if !RoleRequested(role) then Some(None)
    else match ParseRole(role.value)
      case None => None
      case Some(x) => Some(Some(x))
  }

  lemma MatchesVisible(w: Where, caller: Caller, role: Option<string>, search: Option<string>)
    requires caller.role != Pengguna && RoleSelected(caller, role) == Some(w.role)
    requires w.search == (if Present(search) then search else None)
    ensures forall u :: Matches(w, u) == VisibleTo(caller, role, search, u)
  {
  }

  /** The users a caller's query returns, newest first, each as often as it is stored. */
  function Directory(users: seq<User>, caller: Caller, role: Option<string>, search: Option<string>): (sel: seq<User>)
    requires caller.role != Pengguna && RoleSelected(caller, role).Some?
    ensures forall u :: multiset(sel)[u] == if VisibleTo(caller, role, search, u) then multiset(users)[u] else 0
    ensures forall i :: 0 <= i < |sel| ==> sel[i] in users && VisibleTo(caller, role, search, sel[i])
    ensures forall i, j :: 0 <= i < j < |sel| ==> sel[i].createdAt >= sel[j].createdAt
  {
    var w := Where(RoleSelected(caller, role).value, if Present(search) then search else None);
    MatchesVisible(w, caller, role, search);
    FindMany(users, w)
  }

  /** The search term's case does not matter. */
  lemma SearchIgnoresCase(u: User, q: string)
    ensures SearchHit(u, Lower(q)) == SearchHit(u, q)
  {
    LowerIdempotent(q);
  }

  /** For a waste-bank operator the `role` parameter is ignored. */
  lemma OperatorIgnoresRoleParameter(users: seq<User>, caller: Caller, role: Option<string>, role': Option<string>,
                                     search: Option<string>)
    requires caller.role == Pengelola
    ensures Directory(users, caller, role, search) == Directory(users, caller, role', search)
  {
  }

  /**
   * A role value outside the enumeration is rejected by the database, which
   * surfaces as the generic 500; otherwise the visible users, newest first,
   * with a null balance read as 0.
   */
  method Get(db: Db, caller: Caller, role: Option<string>, search: Option<string>) returns (r: Reply<seq<MemberRow>>)
    requires caller.role != Pengguna
    ensures RoleSelected(caller, role).None? <==> r.Fail?
    ensures r.Fail? ==> r == Fail(500, InternalError)
    ensures r.Ok? ==> r == Ok(200, Rows(Directory(db.users, caller, role, search)))
  {
    var selected := RoleSelected(caller, role);
    if selected.None? {
      return Fail(500, InternalError);
    }
    var w := Where(selected.value, if Present(search) then search else None);
    var sel := FindMany(db.users, w);
    r := Ok(200, Rows(sel));
  }
}
