/**
 * app/api/jenis-sampah/route.ts: the catalog of waste types. Deposits store
 * the waste type by name, so a rename is carried over to every deposit with
 * the old name, and a name still in use cannot be deleted.
 */
module JenisSampahCatalog {
  import opened Wrappers
  import opened Strings
  import opened Seqs
  import opened Types
  import opened Http
  import opened Store

  const NameRequired := "Nama jenis sampah diperlukan"
  const NameTaken := "Jenis sampah dengan nama ini sudah ada"
  const IdRequiredForUpdate := "ID diperlukan untuk update"
  const IdRequiredForDelete := "ID diperlukan untuk delete"
  const NotFound := "Jenis sampah tidak ditemukan"
  const InUse := "Tidak dapat menghapus jenis sampah yang sudah digunakan dalam transaksi. Nonaktifkan saja."
  const Deleted := "Jenis sampah berhasil dihapus"

  /** The unique constraint on `jenis_sampah.nama`. */
  predicate NamesUnique(cat: seq<JenisSampah>) {
    forall i, j :: 0 <= i < j < |cat| ==> cat[i].nama != cat[j].nama
  }

  predicate NameHeld(cat: seq<JenisSampah>, nama: string) {
    exists i | 0 <= i < |cat| :: cat[i].nama == nama
  }

  /** Some entry other than the one at index `k` holds `nama` (`where: { nama, NOT: { id } }`). */
  predicate NameHeldByOther(cat: seq<JenisSampah>, k: nat, nama: string) {
    exists i | 0 <= i < |cat| :: i != k && cat[i].nama == nama
  }

  /** Every deposit names a waste type of the catalog. */
  predicate References(cat: seq<JenisSampah>, setoran: seq<Setoran>) {
    forall s :: s in setoran ==> NameHeld(cat, s.jenisSampah)
  }

  predicate InUseBy(setoran: seq<Setoran>, nama: string) {
    exists i | 0 <= i < |setoran| :: setoran[i].jenisSampah == nama
  }

  /** `findUnique({ where: { id } })`. */
  function FindById(cat: seq<JenisSampah>, id: string): (r: Option<nat>)
    ensures r.Some? ==> r.value < |cat| && cat[r.value].id == id
    ensures r.None? ==> forall k :: 0 <= k < |cat| ==> cat[k].id != id
  {
    FirstIndex(cat, (j: JenisSampah) => j.id == id)
  }

  /** `orderBy: { nama: 'asc' }`. */
  predicate NameOrder(a: JenisSampah, b: JenisSampah) {
    StrLe(a.nama, b.nama)
  }

  lemma NameOrderIsOrder()
    ensures TotalPreorder(NameOrder)
  {
    forall a: JenisSampah, b: JenisSampah
      ensures NameOrder(a, b) || NameOrder(b, a)
    {
      StrLeTotal(a.nama, b.nama);
    }
    forall a: JenisSampah, b: JenisSampah, c: JenisSampah | NameOrder(a, b) && NameOrder(b, c)
      ensures NameOrder(a, c)
    {
      StrLeTransitive(a.nama, b.nama, c.nama);
    }
  }

  /** What `active=true` selects: active entries; any other value selects all. */
  predicate Listed(active: Option<string>, j: JenisSampah) {
    active == Some("true") ==> j.isActive
  }

  /** The listing: the selected entries, by name ascending, each as often as stored. */
  function Listing(cat: seq<JenisSampah>, active: Option<string>): (r: seq<JenisSampah>)
    ensures forall j :: multiset(r)[j] == if Listed(active, j) then multiset(cat)[j] else 0
    ensures forall i :: 0 <= i < |r| ==> r[i] in cat && Listed(active, r[i])
    ensures forall i, k :: 0 <= i < k < |r| ==> StrLe(r[i].nama, r[k].nama)
  {
    NameOrderIsOrder();
    var keep := j => Listed(active, j);
    FilterCounts(cat, keep);
    var r := Sort(Filter(cat, keep), NameOrder);
    assert forall i :: 0 <= i < |r| ==> r[i] in multiset(r);
    r
  }

  /** GET: `active=true` lists the active entries, anything else all of them; by name ascending. */
  method Get(db: Db, caller: Caller, active: Option<string>) returns (r: Reply<seq<JenisSampah>>)
    ensures r.Ok? && r.status == 200
    ensures forall j :: multiset(r.value)[j] == if Listed(active, j) then multiset(db.jenisSampah)[j] else 0
    ensures forall i, k :: 0 <= i < k < |r.value| ==> StrLe(r.value[i].nama, r.value[k].nama)
  {
    r := Ok(200, Listing(db.jenisSampah, active));
  }

  /** `updateMany({ where: { jenis_sampah: from }, data: { jenis_sampah: to } })`. */
  function RenameAll(setoran: seq<Setoran>, from: string, to: string): (r: seq<Setoran>)
    ensures |r| == |setoran|
    ensures forall i :: 0 <= i < |r| ==>
      r[i] == if setoran[i].jenisSampah == from then setoran[i].(jenisSampah := to) else setoran[i]
  {
    seq(|setoran|, i requires 0 <= i < |setoran| =>
      if setoran[i].jenisSampah == from then setoran[i].(jenisSampah := to) else setoran[i])
  }

  /** After a rename no deposit keeps the old name, unless it already was the new one. */
  lemma RenameAllLeavesNoOldName(setoran: seq<Setoran>, from: string, to: string)
    requires from != to
    ensures !InUseBy(RenameAll(setoran, from, to), from)
    ensures InUseBy(setoran, from) ==> InUseBy(RenameAll(setoran, from, to), to)
  {
    var r := RenameAll(setoran, from, to);
    if InUseBy(setoran, from) {
      var i :| 0 <= i < |setoran| && setoran[i].jenisSampah == from;
      assert r[i].jenisSampah == to;
    }
  }

  /** Renaming a type to its own name changes no deposit. */
  lemma RenameToSameName(setoran: seq<Setoran>, n: string)
    ensures RenameAll(setoran, n, n) == setoran
  {
  }

  /**
   * The cascade rewrites the waste-type name only: every other column of
   * every deposit, and every deposit of another type, is untouched, and the
   * renamed deposits are exactly those that had the old name.
   */
  lemma RenameTouchesOnlyName(setoran: seq<Setoran>, from: string, to: string)
    requires from != to
    ensures var r := RenameAll(setoran, from, to);
      && |r| == |setoran|
      && (forall i :: 0 <= i < |r| ==> r[i].(jenisSampah := setoran[i].jenisSampah) == setoran[i])
      && (forall i :: 0 <= i < |r| ==> (r[i] != setoran[i] <==> setoran[i].jenisSampah == from))
  {
  }

  /** `updateData`: only the supplied fields change. */
  function Updated(j: JenisSampah, nama: Option<string>, isActive: Option<bool>): (u: JenisSampah)
    ensures u.id == j.id
    ensures u.nama == nama.GetOr(j.nama) && u.isActive == isActive.GetOr(j.isActive)
  {
    var u := if nama.Some? then j.(nama := nama.value) else j;
    if isActive.Some? then u.(isActive := isActive.value) else u
  }

  /** Inserting a name nobody holds keeps names unique. */
  lemma InsertKeepsNamesUnique(cat: seq<JenisSampah>, j: JenisSampah)
    requires NamesUnique(cat) && !NameHeld(cat, j.nama)
    ensures NamesUnique(cat + [j])
  {
  }

  /** Renaming an entry to a name no other entry holds keeps names unique. */
  lemma RenameKeepsNamesUnique(cat: seq<JenisSampah>, k: nat, u: JenisSampah)
    requires k < |cat| && NamesUnique(cat) && !NameHeldByOther(cat, k, u.nama)
    ensures NamesUnique(cat[k := u])
  {
    var cat' := cat[k := u];
    forall i, l | 0 <= i < l < |cat'|
      ensures cat'[i].nama != cat'[l].nama
    {
      if i == k {
        assert cat[l].nama == cat'[l].nama;
      } else if l == k {
        assert cat[i].nama == cat'[i].nama;
      }
    }
  }

  /** A rename carried over to the deposits keeps every deposit's waste type in the catalog. */
  lemma RenameKeepsReferences(cat: seq<JenisSampah>, k: nat, setoran: seq<Setoran>, u: JenisSampah)
    requires k < |cat| && References(cat, setoran)
    ensures References(cat[k := u], RenameAll(setoran, cat[k].nama, u.nama))
  {
    var cat' := cat[k := u];
    var r := RenameAll(setoran, cat[k].nama, u.nama);
    forall s | s in r
      ensures NameHeld(cat', s.jenisSampah)
    {
      var i :| 0 <= i < |r| && r[i] == s;
      if setoran[i].jenisSampah == cat[k].nama {
        assert cat'[k].nama == s.jenisSampah;
      } else {
        assert setoran[i] in setoran;
        var l :| 0 <= l < |cat| && cat[l].nama == setoran[i].jenisSampah;
        assert l != k && cat'[l].nama == s.jenisSampah;
      }
    }
  }

  /** Without the carry-over, a rename would orphan the deposits that use the old name. */
  lemma RenameWithoutCarryOverOrphans(cat: seq<JenisSampah>, k: nat, setoran: seq<Setoran>, to: string)
    requires k < |cat| && NamesUnique(cat) && InUseBy(setoran, cat[k].nama) && cat[k].nama != to
    ensures !References(cat[k := cat[k].(nama := to)], setoran)
  {
    var cat' := cat[k := cat[k].(nama := to)];
    var i :| 0 <= i < |setoran| && setoran[i].jenisSampah == cat[k].nama;
    assert setoran[i] in setoran;
    forall l | 0 <= l < |cat'|
      ensures cat'[l].nama != cat[k].nama
    {
      if l != k {
        assert cat'[l] == cat[l];
      }
    }
  }

  /** Removing a name no deposit uses keeps every deposit's waste type in the catalog. */
  lemma RemoveKeepsReferences(cat: seq<JenisSampah>, k: nat, setoran: seq<Setoran>)
    requires k < |cat| && References(cat, setoran) && !InUseBy(setoran, cat[k].nama)
    ensures References(cat[..k] + cat[k + 1..], setoran)
  {
    var cat' := cat[..k] + cat[k + 1..];
    forall s | s in setoran
      ensures NameHeld(cat', s.jenisSampah)
    {
      var i :| 0 <= i < |setoran| && setoran[i] == s;
      var l :| 0 <= l < |cat| && cat[l].nama == s.jenisSampah;
      assert l != k;
      if l < k {
        assert cat'[l] == cat[l];
      } else {
        assert cat'[l - 1] == cat[l];
      }
    }
  }

  lemma RemoveKeepsNamesUnique(cat: seq<JenisSampah>, k: nat)
    requires k < |cat| && NamesUnique(cat)
    ensures NamesUnique(cat[..k] + cat[k + 1..])
  {
    var cat' := cat[..k] + cat[k + 1..];
    forall i, l | 0 <= i < l < |cat'|
      ensures cat'[i].nama != cat'[l].nama
    {
      var i0 := if i < k then i else i + 1;
      var l0 := if l < k then l else l + 1;
      assert cat'[i] == cat[i0] && cat'[l] == cat[l0] && i0 < l0;
    }
  }

  /** POST: a name is required and must be new; `is_active` defaults to true. */
  method Post(db: Db, caller: Caller, nama: Option<string>, isActive: Option<bool>, env: Env)
    returns (r: Reply<JenisSampah>)
    requires caller.role == Admin
    modifies db`jenisSampah
    ensures !Present(nama) ==> r == Fail(400, NameRequired) && db.jenisSampah == old(db.jenisSampah)
    ensures Present(nama) && NameHeld(old(db.jenisSampah), nama.value) ==>
      r == Fail(400, NameTaken) && db.jenisSampah == old(db.jenisSampah)
    ensures Present(nama) && !NameHeld(old(db.jenisSampah), nama.value) ==>
      && r == Ok(200, JenisSampah(env.id, nama.value, isActive.GetOr(true)))
      && db.jenisSampah == old(db.jenisSampah) + [r.value]
    ensures NamesUnique(old(db.jenisSampah)) ==> NamesUnique(db.jenisSampah)
  {
    if !Present(nama) {
      return Fail(400, NameRequired);
    }
    if NameHeld(db.jenisSampah, nama.value) {
      return Fail(400, NameTaken);
    }
    var data := JenisSampah(env.id, nama.value, if isActive.Some? then isActive.value else true);
    if NamesUnique(db.jenisSampah) {
      InsertKeepsNamesUnique(db.jenisSampah, data);
    }
    db.jenisSampah := db.jenisSampah + [data];
    r := Ok(200, data);
  }

  /**
   * PUT. A non-empty new name must not be held by another entry and is
   * carried over to the deposits; then the supplied fields are written. An
   * empty name skips both, and writing it over another entry's empty name
   * violates the unique constraint (the generic 500).
   */
  method Put(db: Db, caller: Caller, id: Option<string>, nama: Option<string>, isActive: Option<bool>)
    returns (r: Reply<JenisSampah>)
    requires caller.role == Admin
    modifies db`jenisSampah, db`setoran
    ensures r.Fail? ==> db.jenisSampah == old(db.jenisSampah) && db.setoran == old(db.setoran)
    ensures !Present(id) ==> r == Fail(400, IdRequiredForUpdate)
    ensures Present(id) && FindById(old(db.jenisSampah), id.value).None? ==> r == Fail(404, NotFound)
    ensures Present(id) && FindById(old(db.jenisSampah), id.value).Some? ==>
      var k := FindById(old(db.jenisSampah), id.value).value;
      var current := old(db.jenisSampah)[k];
      var renamed := Present(nama) && nama.value != current.nama;
      if renamed && NameHeldByOther(old(db.jenisSampah), k, nama.value) then
        r == Fail(400, NameTaken)
      else if nama == Some("") && NameHeldByOther(old(db.jenisSampah), k, "") then
        r.Fail? && r.status == 500
      else
        && r == Ok(200, Updated(current, nama, isActive))
        && db.jenisSampah == old(db.jenisSampah)[k := r.value]
        && db.setoran == (if renamed then RenameAll(old(db.setoran), current.nama, nama.value) else old(db.setoran))
    ensures NamesUnique(old(db.jenisSampah)) ==> NamesUnique(db.jenisSampah)
    ensures References(old(db.jenisSampah), old(db.setoran)) && nama != Some("") ==>
      References(db.jenisSampah, db.setoran)
  {
    if !Present(id) {
      return Fail(400, IdRequiredForUpdate);
    }
    var found := FindById(db.jenisSampah, id.value);
    if found.None? {
      return Fail(404, NotFound);
    }
    var k := found.value;
    var current := db.jenisSampah[k];
    if Present(nama) && nama.value != current.nama {
      if NameHeldByOther(db.jenisSampah, k, nama.value) {
        return Fail(400, NameTaken);
      }
      db.setoran := RenameAll(db.setoran, current.nama, nama.value);
    }
    if nama == Some("") && NameHeldByOther(db.jenisSampah, k, "") {
      return Fail(500, InternalError);
    }
    var updated := Updated(current, nama, isActive);
    if NamesUnique(db.jenisSampah) {
      RenameKeepsNamesUnique(db.jenisSampah, k, updated);
    }
    if References(old(db.jenisSampah), old(db.setoran)) && nama != Some("") {
      RenameKeepsReferences(db.jenisSampah, k, old(db.setoran), updated);
      RenameToSameName(old(db.setoran), current.nama);
    }
    db.jenisSampah := db.jenisSampah[k := updated];
    r := Ok(200, updated);
  }

  /** DELETE: refused while a deposit uses the name; otherwise exactly that entry goes. */
  method Delete(db: Db, caller: Caller, id: Option<string>) returns (r: Reply<string>)
    requires caller.role == Admin
    modifies db`jenisSampah
    ensures !Present(id) ==> r == Fail(400, IdRequiredForDelete) && db.jenisSampah == old(db.jenisSampah)
    ensures Present(id) && FindById(old(db.jenisSampah), id.value).None? ==>
      r == Fail(404, NotFound) && db.jenisSampah == old(db.jenisSampah)
    ensures Present(id) && FindById(old(db.jenisSampah), id.value).Some? ==>
      var k := FindById(old(db.jenisSampah), id.value).value;
      if InUseBy(db.setoran, old(db.jenisSampah)[k].nama) then
        r == Fail(400, InUse) && db.jenisSampah == old(db.jenisSampah)
      else
        r == Ok(200, Deleted) && db.jenisSampah == old(db.jenisSampah)[..k] + old(db.jenisSampah)[k + 1..]
    ensures NamesUnique(old(db.jenisSampah)) ==> NamesUnique(db.jenisSampah)
    ensures References(old(db.jenisSampah), db.setoran) ==> References(db.jenisSampah, db.setoran)
  {
    if !Present(id) {
      return Fail(400, IdRequiredForDelete);
    }
    var found := FindById(db.jenisSampah, id.value);
    if found.None? {
      return Fail(404, NotFound);
    }
    var k := found.value;
    if InUseBy(db.setoran, db.jenisSampah[k].nama) {
      return Fail(400, InUse);
    }
    if NamesUnique(db.jenisSampah) {
      RemoveKeepsNamesUnique(db.jenisSampah, k);
    }
    if References(db.jenisSampah, db.setoran) {
      RemoveKeepsReferences(db.jenisSampah, k, db.setoran);
    }
    db.jenisSampah := db.jenisSampah[..k] + db.jenisSampah[k + 1..];
    r := Ok(200, Deleted);
  }
}
