/** GET of app/api/pencairan/list/route.ts: withdrawal requests by owner and status, newest first. */
module PencairanList {
  import opened Wrappers
  import opened Types
  import opened Http
  import opened Store
  import opened Seqs
  import SetoranList

  /** One output row: the request's columns (`nominal` as a number) with owner and approver summaries. */
  datatype PencairanRow = PencairanRow(
    pencairan: Pencairan,
    users: Option<SetoranList.UserSummary>,
    pengelola: Option<SetoranList.PengelolaSummary>)

  /** The `where` object: an owner filter and a status filter, each optional. */
  datatype Where = Where(userId: Option<string>, status: Option<PencairanStatus>)

  predicate Matches(w: Where, p: Pencairan) {
    && (w.userId.Some? ==> p.userId == w.userId.value)
    && (w.status.Some? ==> p.status == w.status.value)
  }

  /** The `status` query parameter asks for one status unless absent, empty or `all`. */
  predicate StatusRequested(status: Option<string>) {
    Present(status) && status.value != "all"
  }

  /**
   * The status filter of the query: none, or the status named. The column
   * is an enumeration, so a name outside it makes the query fail (`None`).
   */
  function StatusSelected(status: Option<string>): (r: Option<Option<PencairanStatus>>)
    ensures !StatusRequested(status) ==> r == Some(None)
    ensures r.None? <==> StatusRequested(status) && forall st: PencairanStatus :: st.Name() != status.value
    ensures r.Some? && r.value.Some? ==> StatusRequested(status) && r.value.value.Name() == status.value
  {
    if !StatusRequested(status) then Some(None)
    else match ParsePencairanStatus(status.value)
      case None => None
      case Some(st) => Some(Some(st))
  }

  /** Ownership and status combine conjunctively. */
  predicate VisibleTo(caller: Caller, status: Option<string>, p: Pencairan) {
    && (caller.role == Pengguna ==> p.userId == caller.id)
    && (StatusRequested(status) ==> p.status.Name() == status.value)
  }

  /** `orderBy: { tanggal_request: 'desc' }`. */
  predicate NewerOrSame(a: Pencairan, b: Pencairan) {
    a.tanggalRequest >= b.tanggalRequest
  }

  lemma NewerOrSameIsOrder()
    ensures TotalPreorder(NewerOrSame)
  {
  }

  function FindMany(xs: seq<Pencairan>, w: Where): (r: seq<Pencairan>)
    ensures forall p :: multiset(r)[p] == if Matches(w, p) then multiset(xs)[p] else 0
    ensures forall i :: 0 <= i < |r| ==> r[i] in xs && Matches(w, r[i])
    ensures forall i, j :: 0 <= i < j < |r| ==> r[i].tanggalRequest >= r[j].tanggalRequest
  {
    NewerOrSameIsOrder();
    var keep := p => Matches(w, p);
    FilterCounts(xs, keep);
    var r := Sort(Filter(xs, keep), NewerOrSame);
    assert forall i :: 0 <= i < |r| ==> r[i] in multiset(r);
    r
  }

  function Format(p: Pencairan, users: seq<User>): PencairanRow {
    PencairanRow(p,
      SetoranList.Summary(FindUser(users, p.userId)),
      if p.pengelolaId.Some? then SetoranList.ValidatorName(FindUser(users, p.pengelolaId.value)) else None)
  }

  function Records(rows: seq<PencairanRow>): (r: seq<Pencairan>)
    ensures |r| == |rows| && forall i :: 0 <= i < |rows| ==> r[i] == rows[i].pencairan
  {
    seq(|rows|, i requires 0 <= i < |rows| => rows[i].pencairan)
  }

  /** `data.map(...)`: one output row per record, in order. */
  function FormatAll(rows: seq<Pencairan>, users: seq<User>): (out: seq<PencairanRow>)
    ensures Records(out) == rows
    ensures forall i :: 0 <= i < |out| ==> out[i].users == SetoranList.Summary(FindUser(users, rows[i].userId))
    ensures forall i :: 0 <= i < |out| ==>
      out[i].pengelola == if rows[i].pengelolaId.Some? then SetoranList.ValidatorName(FindUser(users, rows[i].pengelolaId.value)) else None
  {
    var out := seq(|rows|, i requires 0 <= i < |rows| => Format(rows[i], users));
    assert Records(out) == rows;
    out
  }

  lemma MatchesVisible(w: Where, caller: Caller, status: Option<string>)
    requires w.userId == if caller.role == Pengguna then Some(caller.id) else None
    requires StatusSelected(status) == Some(w.status)
    ensures forall p :: Matches(w, p) == VisibleTo(caller, status, p)
  {
  }

  /**
   * The requests a caller sees for a status the enumeration knows (or
   * none): exactly the visible ones, each as often as stored, newest
   * first, each with its owner and approver summaries.
   */
  function Listing(xs: seq<Pencairan>, users: seq<User>, caller: Caller, status: Option<string>): (out: seq<PencairanRow>)
    requires StatusSelected(status).Some?
    ensures forall p :: multiset(Records(out))[p] == if VisibleTo(caller, status, p) then multiset(xs)[p] else 0
    ensures forall i :: 0 <= i < |out| ==> out[i].pencairan in xs && VisibleTo(caller, status, out[i].pencairan)
    ensures forall i, j :: 0 <= i < j < |out| ==> out[i].pencairan.tanggalRequest >= out[j].pencairan.tanggalRequest
    ensures forall i :: 0 <= i < |out| ==> out[i].users == SetoranList.Summary(FindUser(users, out[i].pencairan.userId))
    ensures forall i :: 0 <= i < |out| ==> var p := out[i].pencairan;
      out[i].pengelola == if p.pengelolaId.Some? then SetoranList.ValidatorName(FindUser(users, p.pengelolaId.value)) else None
  {
    var w := Where(if caller.role == Pengguna then Some(caller.id) else None, StatusSelected(status).value);
    MatchesVisible(w, caller, status);
    var rows := FindMany(xs, w);
    FormatAll(rows, users)
  }

  /**
   * A status outside the enumeration is rejected by the database, which
   * surfaces as the generic 500; otherwise the caller's listing.
   */
  method Get(db: Db, caller: Caller, status: Option<string>) returns (r: Reply<seq<PencairanRow>>)
    ensures r.Fail? <==> StatusRequested(status) && ParsePencairanStatus(status.value).None?
    ensures r.Fail? ==> r == Fail(500, InternalError)
    ensures r.Ok? ==> StatusSelected(status).Some? && r == Ok(200, Listing(db.pencairan, db.users, caller, status))
  {
    if StatusSelected(status).None? {
      return Fail(500, InternalError);
    }
    r := Ok(200, Listing(db.pencairan, db.users, caller, status));
  }

  /** Asking for `all`, or for nothing, applies no status filter. */
  lemma AllMeansNoStatusFilter(caller: Caller, p: Pencairan)
    ensures VisibleTo(caller, Some("all"), p) == VisibleTo(caller, None, p)
    ensures VisibleTo(caller, Some(""), p) == VisibleTo(caller, None, p)
  {
  }
}
