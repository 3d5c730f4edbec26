/** GET of app/api/setoran/list/route.ts: the deposits a caller may see, newest first. */
module SetoranList {
  import opened Wrappers
  import opened Types
  import opened Http
  import opened Store
  import opened Seqs

  /** The owner columns the list includes. */
  datatype UserSummary = UserSummary(namaLengkap: string, email: string, noHp: Option<string>)

  datatype PengelolaSummary = PengelolaSummary(namaLengkap: string)

  /**
   * One output row: the deposit's own columns (optional numbers stay
   * null, present ones are numbers), the owner summary and the validator's name.
   */
  datatype SetoranRow = SetoranRow(setoran: Setoran, users: Option<UserSummary>, pengelola: Option<PengelolaSummary>)

  /** The `where` object: an owner filter or none. */
  datatype Where = Where(userId: Option<string>)

  predicate Matches(w: Where, s: Setoran) {
    w.userId.Some? ==> s.userId == w.userId.value
  }

  /** A member sees their own deposits; staff see all. */
  predicate VisibleTo(caller: Caller, s: Setoran) {
    caller.role == Pengguna ==> s.userId == caller.id
  }

  /** `orderBy: { tanggal_setor: 'desc' }`. */
  predicate NewerOrSame(a: Setoran, b: Setoran) {
    a.tanggalSetor >= b.tanggalSetor
  }

  lemma NewerOrSameIsOrder()
    ensures TotalPreorder(NewerOrSame)
  {
  }

  function Summary(u: Option<User>): (r: Option<UserSummary>)
    ensures r.None? <==> u.None?
    ensures r.Some? ==> r.value == UserSummary(u.value.namaLengkap, u.value.email, u.value.noHp)
  {
    match u
    case None => None
    case Some(v) => Some(UserSummary(v.namaLengkap, v.email, v.noHp))
  }

  function ValidatorName(u: Option<User>): (r: Option<PengelolaSummary>)
    ensures r.None? <==> u.None?
    ensures r.Some? ==> r.value.namaLengkap == u.value.namaLengkap
  {
    match u
    case None => None
    case Some(v) => Some(PengelolaSummary(v.namaLengkap))
  }

  function Format(s: Setoran, users: seq<User>): SetoranRow {
    SetoranRow(s,
      Summary(FindUser(users, s.userId)),
      if s.pengelolaId.Some? then ValidatorName(FindUser(users, s.pengelolaId.value)) else None)
  }

  function Records(rows: seq<SetoranRow>): (r: seq<Setoran>)
    ensures |r| == |rows| && forall i :: 0 <= i < |rows| ==> r[i] == rows[i].setoran
  {
    seq(|rows|, i requires 0 <= i < |rows| => rows[i].setoran)
  }

  /** `findMany({ where, orderBy: { tanggal_setor: 'desc' } })`. */
  function FindMany(xs: seq<Setoran>, w: Where): (r: seq<Setoran>)
    ensures forall s :: multiset(r)[s] == if Matches(w, s) then multiset(xs)[s] else 0
    ensures forall i :: 0 <= i < |r| ==> r[i] in xs && Matches(w, r[i])
    ensures forall i, j :: 0 <= i < j < |r| ==> r[i].tanggalSetor >= r[j].tanggalSetor
  {
    NewerOrSameIsOrder();
    var keep := s => Matches(w, s);
    FilterCounts(xs, keep);
    var r := Sort(Filter(xs, keep), NewerOrSame);
    assert forall i :: 0 <= i < |r| ==> r[i] in multiset(r);
    r
  }

  /** `data.map(...)`: one output row per record, in order. */
  function FormatAll(rows: seq<Setoran>, users: seq<User>): (out: seq<SetoranRow>)
    ensures Records(out) == rows
    ensures forall i :: 0 <= i < |out| ==> out[i].users == Summary(FindUser(users, rows[i].userId))
    ensures forall i :: 0 <= i < |out| ==>
      out[i].pengelola == if rows[i].pengelolaId.Some? then ValidatorName(FindUser(users, rows[i].pengelolaId.value)) else None
  {
    var out := seq(|rows|, i requires 0 <= i < |rows| => Format(rows[i], users));
    assert Records(out) == rows;
    out
  }

  method Get(db: Db, caller: Caller) returns (out: seq<SetoranRow>)
    // exactly the visible deposits, each as often as it is stored
    ensures forall s :: multiset(Records(out))[s] == if VisibleTo(caller, s) then multiset(db.setoran)[s] else 0
    ensures forall i :: 0 <= i < |out| ==> out[i].setoran in db.setoran && VisibleTo(caller, out[i].setoran)
    ensures forall i, j :: 0 <= i < j < |out| ==> out[i].setoran.tanggalSetor >= out[j].setoran.tanggalSetor
    // the owner summary, null exactly when no user has the owner's id
    ensures forall i :: 0 <= i < |out| ==> out[i].users == Summary(FindUser(db.users, out[i].setoran.userId))
    // the validator's name, null when no validator is recorded or none has that id
    ensures forall i :: 0 <= i < |out| ==> var s := out[i].setoran;
      out[i].pengelola == if s.pengelolaId.Some? then ValidatorName(FindUser(db.users, s.pengelolaId.value)) else None
  {
    var w := Where(None);
    if caller.role == Pengguna {
      w := Where(Some(caller.id));
    }
    assert forall s :: Matches(w, s) == VisibleTo(caller, s);
    var rows := FindMany(db.setoran, w);
    out := FormatAll(rows, db.users);
  }
}
