/**
 * GET of app/api/dashboard/stats/route.ts: per-role counters and sums,
 * each a `filter(...).length` or a `filter(...).reduce(...)` over the rows
 * the role may see.
 * The month-window counter `setoranBulanIni` compares dates and is not modelled.
 */
module DashboardStats {
  import opened Wrappers
  import opened Types
  import opened Http
  import opened Seqs

  datatype Stats =
    | MemberStats(totalSetoran: nat, setoranPending: nat, setoranValidated: nat,
                  totalPencairan: int, pencairanPending: nat)
    | PengelolaStats(totalSetoran: nat, setoranPending: nat, setoranValidated: nat,
                     pencairanPending: nat, totalUsers: nat)
    | AdminStats(totalSetoran: nat, setoranValidated: nat, totalUsers: nat, totalPengelola: nat,
                 totalSampahKg: int, totalPencairan: int)

  /** The filter tests of the route: `s => s.status === st` and the owner `where`. */
  function SetoranWith(st: SetoranStatus): Setoran -> bool {
    (s: Setoran) => s.status == st
  }

  function PencairanWith(st: PencairanStatus): Pencairan -> bool {
    (p: Pencairan) => p.status == st
  }

  /** `where: { role }` of `prisma.user.count`. */
  function UserWith(role: Role): User -> bool {
    (u: User) => u.role == role
  }

  function SetoranOf(id: string): Setoran -> bool {
    (s: Setoran) => s.userId == id
  }

  function PencairanOf(id: string): Pencairan -> bool {
    (p: Pencairan) => p.userId == id
  }

  function PencairanNotOf(id: string): Pencairan -> bool {
    (p: Pencairan) => p.userId != id
  }

  /** `reduce((sum, p) => sum + Number(p.nominal), 0)`. */
  function SumNominal(xs: seq<Pencairan>): (r: int)
    ensures (forall p :: p in xs ==> p.nominal > 0) ==> r >= 0 && (r == 0 <==> |xs| == 0)
  {
    if |xs| == 0 then 0
    else
      assert forall p :: p in xs[1..] ==> p in xs;
      xs[0].nominal + SumNominal(xs[1..])
  }

  /**
   * `totalPencairan`: the nominals of the approved requests. With positive
   * nominals it is never negative, and zero exactly when nothing is approved.
   */
  function SumApproved(xs: seq<Pencairan>): (r: int)
    ensures (forall p :: p in xs ==> p.nominal > 0) ==>
      r >= 0 && (r == 0 <==> forall p :: p in xs ==> p.status != Approved)
  {
    var approved := Filter(xs, PencairanWith(Approved));
    FilterCounts(xs, PencairanWith(Approved));
    assert |approved| > 0 ==> approved[0] in approved;
    SumNominal(approved)
  }

  /** A deposit's weight; an absent (or zero) weight adds nothing. */
  function KgOf(s: Setoran): int {
    if s.beratSampah.Some? then s.beratSampah.value else 0
  }

  function SumKg(xs: seq<Setoran>): (r: int)
    ensures (forall s :: s in xs ==> KgOf(s) >= 0) ==> r >= 0
  {
    if |xs| == 0 then 0
    else
      assert forall s :: s in xs[1..] ==> s in xs;
      KgOf(xs[0]) + SumKg(xs[1..])
  }

  /** `totalSampahKg`: the weights of the validated deposits only. */
  function SumValidatedKg(xs: seq<Setoran>): (r: int)
    ensures (forall s :: s in xs && s.status == Validated ==> KgOf(s) >= 0) ==> r >= 0
  {
    FilterCounts(xs, SetoranWith(Validated));
    SumKg(Filter(xs, SetoranWith(Validated)))
  }

  /** Appending a deposit adds its weight, an absent weight counting 0. */
  lemma {:induction false} SumKgAppend(xs: seq<Setoran>, s: Setoran)
    ensures SumKg(xs + [s]) == SumKg(xs) + KgOf(s)
  {
    if |xs| == 0 {
      assert xs + [s] == [s] && [s][1..] == [];
    } else {
      assert (xs + [s])[0] == xs[0];
      assert (xs + [s])[1..] == xs[1..] + [s];
      SumKgAppend(xs[1..], s);
    }
  }

  /** Appending a deposit adds its weight to `totalSampahKg` exactly when it is validated. */
  lemma SumValidatedKgAppend(xs: seq<Setoran>, s: Setoran)
    ensures SumValidatedKg(xs + [s]) == SumValidatedKg(xs) + (if s.status == Validated then KgOf(s) else 0)
  {
    var v := Filter(xs, SetoranWith(Validated));
    FilterAppend(xs, [s], SetoranWith(Validated));
    FilterSingle(s, SetoranWith(Validated));
    if s.status == Validated {
      SumKgAppend(v, s);
    } else {
      assert v + [] == v;
    }
  }

  /** The figures each role sees; a member's are taken over their own records only. */
  function Compute(caller: Caller, users: seq<User>, setoran: seq<Setoran>, pencairan: seq<Pencairan>): (r: Stats)
    ensures caller.role == Pengguna <==> r.MemberStats?
    ensures caller.role == Pengelola <==> r.PengelolaStats?
    ensures caller.role == Admin <==> r.AdminStats?
  {
    match caller.role
    case Pengguna =>
      var own := Filter(setoran, SetoranOf(caller.id));
      var mine := Filter(pencairan, PencairanOf(caller.id));
      MemberStats(|own|, |Filter(own, SetoranWith(SetoranPending))|, |Filter(own, SetoranWith(Validated))|,
                  SumApproved(mine), |Filter(mine, PencairanWith(PencairanPending))|)
    case Pengelola =>
      PengelolaStats(|setoran|, |Filter(setoran, SetoranWith(SetoranPending))|,
                     |Filter(setoran, SetoranWith(Validated))|,
                     |Filter(pencairan, PencairanWith(PencairanPending))|, |Filter(users, UserWith(Pengguna))|)
    case Admin =>
      AdminStats(|setoran|, |Filter(setoran, SetoranWith(Validated))|, |users|,
                 |Filter(users, UserWith(Pengelola))|, SumValidatedKg(setoran), SumApproved(pencairan))
  }

  /** Each deposit has exactly one of the three statuses, so the counts partition the total. */
  lemma SetoranStatusPartition(xs: seq<Setoran>)
    ensures |Filter(xs, SetoranWith(SetoranPending))| + |Filter(xs, SetoranWith(Validated))|
          + |Filter(xs, SetoranWith(SetoranRejected))| == |xs|
  {
    FilterPartition3(xs, SetoranWith(SetoranPending), SetoranWith(Validated), SetoranWith(SetoranRejected));
  }

  lemma PencairanStatusPartition(xs: seq<Pencairan>)
    ensures |Filter(xs, PencairanWith(PencairanPending))| + |Filter(xs, PencairanWith(Approved))|
          + |Filter(xs, PencairanWith(PencairanRejected))| == |xs|
  {
    FilterPartition3(xs, PencairanWith(PencairanPending), PencairanWith(Approved), PencairanWith(PencairanRejected));
  }

  /** Every user has exactly one role: an admin's `totalUsers` is the sum of the per-role counts. */
  lemma RolePartition(users: seq<User>)
    ensures |Filter(users, UserWith(Admin))| + |Filter(users, UserWith(Pengelola))|
          + |Filter(users, UserWith(Pengguna))| == |users|
  {
    FilterPartition3(users, UserWith(Admin), UserWith(Pengelola), UserWith(Pengguna));
  }

  /** `setoranPending + setoranValidated <= totalSetoran` for every role that reports both. */
  lemma PendingAndValidatedBounded(caller: Caller, users: seq<User>, setoran: seq<Setoran>, pencairan: seq<Pencairan>)
    requires caller.role != Admin
    ensures var r := Compute(caller, users, setoran, pencairan);
      r.setoranPending + r.setoranValidated <= r.totalSetoran
  {
    if caller.role == Pengguna {
      SetoranStatusPartition(Filter(setoran, SetoranOf(caller.id)));
    } else {
      SetoranStatusPartition(setoran);
    }
  }

  /** A member's figures are unaffected by other members' deposits and requests. */
  lemma MemberFiguresIgnoreOthers(m: Caller, users: seq<User>, setoran: seq<Setoran>, pencairan: seq<Pencairan>,
                                  moreSetoran: seq<Setoran>, morePencairan: seq<Pencairan>)
    requires m.role == Pengguna
    requires forall s :: s in moreSetoran ==> s.userId != m.id
    requires forall p :: p in morePencairan ==> p.userId != m.id
    ensures Compute(m, users, setoran + moreSetoran, pencairan + morePencairan) == Compute(m, users, setoran, pencairan)
  {
    FilterAppend(setoran, moreSetoran, SetoranOf(m.id));
    FilterNone(moreSetoran, SetoranOf(m.id));
    assert Filter(setoran, SetoranOf(m.id)) + [] == Filter(setoran, SetoranOf(m.id));
    FilterAppend(pencairan, morePencairan, PencairanOf(m.id));
    FilterNone(morePencairan, PencairanOf(m.id));
    assert Filter(pencairan, PencairanOf(m.id)) + [] == Filter(pencairan, PencairanOf(m.id));
  }

  /** Filtering a one-element list. */
  lemma FilterSingle<T(!new)>(x: T, p: T -> bool)
    ensures Filter([x], p) == if p(x) then [x] else []
  {
    assert [x][1..] == [];
  }

  /** Storing a new pending deposit adds one to the total and to pending; nothing else moves. */
  lemma NewPendingSetoran(xs: seq<Setoran>, s: Setoran)
    requires s.status == SetoranPending
    ensures |xs + [s]| == |xs| + 1
    ensures |Filter(xs + [s], SetoranWith(SetoranPending))| == |Filter(xs, SetoranWith(SetoranPending))| + 1
    ensures |Filter(xs + [s], SetoranWith(Validated))| == |Filter(xs, SetoranWith(Validated))|
    ensures SumValidatedKg(xs + [s]) == SumValidatedKg(xs)
  {
    FilterAppend(xs, [s], SetoranWith(SetoranPending));
    FilterSingle(s, SetoranWith(SetoranPending));
    FilterAppend(xs, [s], SetoranWith(Validated));
    FilterSingle(s, SetoranWith(Validated));
    assert Filter(xs, SetoranWith(Validated)) + [] == Filter(xs, SetoranWith(Validated));
  }

  /** The approved total of a list with one more request in front. */
  lemma SumApprovedCons(p: Pencairan, xs: seq<Pencairan>)
    ensures SumApproved([p] + xs) == (if p.status == Approved then p.nominal else 0) + SumApproved(xs)
  {
    var ys := [p] + xs;
    assert ys[0] == p && ys[1..] == xs;
    var f := Filter(xs, PencairanWith(Approved));
    if p.status == Approved {
      assert ([p] + f)[0] == p && ([p] + f)[1..] == f;
    }
  }

  /** Appending a request adds its nominal to the approved total exactly when it is approved. */
  lemma SumApprovedAppend(xs: seq<Pencairan>, p: Pencairan)
    ensures SumApproved(xs + [p]) == SumApproved(xs) + (if p.status == Approved then p.nominal else 0)
  {
    if |xs| == 0 {
      assert xs + [p] == [p] + [];
      SumApprovedCons(p, []);
    } else {
      assert xs + [p] == [xs[0]] + (xs[1..] + [p]);
      assert xs == [xs[0]] + xs[1..];
      SumApprovedAppend(xs[1..], p);
      SumApprovedCons(xs[0], xs[1..] + [p]);
      SumApprovedCons(xs[0], xs[1..]);
    }
  }

  /** Storing a new pending request adds one to `pencairanPending` and leaves `totalPencairan`. */
  lemma NewPendingPencairan(xs: seq<Pencairan>, p: Pencairan)
    requires p.status == PencairanPending
    ensures |Filter(xs + [p], PencairanWith(PencairanPending))| == |Filter(xs, PencairanWith(PencairanPending))| + 1
    ensures SumApproved(xs + [p]) == SumApproved(xs)
  {
    FilterAppend(xs, [p], PencairanWith(PencairanPending));
    FilterSingle(p, PencairanWith(PencairanPending));
    SumApprovedAppend(xs, p);
  }

  /** The approved total splits into the member's own part and everyone else's. */
  lemma {:induction false} SumApprovedSplits(xs: seq<Pencairan>, id: string)
    ensures SumApproved(xs) == SumApproved(Filter(xs, PencairanOf(id))) + SumApproved(Filter(xs, PencairanNotOf(id)))
  {
    if |xs| > 0 {
      var x, rest := xs[0], xs[1..];
      assert xs == [x] + rest;
      SumApprovedSplits(rest, id);
      SumApprovedCons(x, rest);
      var own, others := Filter(rest, PencairanOf(id)), Filter(rest, PencairanNotOf(id));
      if x.userId == id {
        assert Filter(xs, PencairanOf(id)) == [x] + own;
        assert Filter(xs, PencairanNotOf(id)) == others;
        SumApprovedCons(x, own);
      } else {
        assert Filter(xs, PencairanOf(id)) == own;
        assert Filter(xs, PencairanNotOf(id)) == [x] + others;
        SumApprovedCons(x, others);
      }
    }
  }

  /**
   * The operator and admin dashboards agree on the deposit counts, and the
   * admin's user count is the operator's member count plus the operators and the admins.
   */
  lemma StaffViewsAgree(a: Caller, o: Caller, users: seq<User>, setoran: seq<Setoran>, pencairan: seq<Pencairan>)
    requires a.role == Admin && o.role == Pengelola
    ensures var ra, ro := Compute(a, users, setoran, pencairan), Compute(o, users, setoran, pencairan);
      && ra.totalSetoran == ro.totalSetoran
      && ra.setoranValidated == ro.setoranValidated
      && ra.totalUsers == ro.totalUsers + ra.totalPengelola + |Filter(users, UserWith(Admin))|
  {
    RolePartition(users);
  }

  /** A member's `totalPencairan` is their share of the admin's: the rest belongs to other members. */
  lemma MemberShareOfTotal(m: Caller, a: Caller, users: seq<User>, setoran: seq<Setoran>, pencairan: seq<Pencairan>)
    requires m.role == Pengguna && a.role == Admin
    ensures Compute(a, users, setoran, pencairan).totalPencairan ==
      Compute(m, users, setoran, pencairan).totalPencairan + SumApproved(Filter(pencairan, PencairanNotOf(m.id)))
  {
    SumApprovedSplits(pencairan, m.id);
  }
}
