/**
 * POST of app/api/member/by-code/route.ts: staff look a member up by the
 * last characters of the member's id, as printed on the member card.
 */
module MemberByCode {
  import opened Wrappers
  import opened Strings
  import opened Seqs
  import opened Types
  import opened Http
  import opened Store
  import MemberScan

  const CodeTooShort := "Kode harus minimal 3 karakter"
  const CodeNotFound := "Kode tidak ditemukan"

  /** The first member whose id ends with the lower-cased code. */
  function Search(users: seq<User>, code: string): (r: Option<nat>)
    ensures r.Some? ==> r.value < |users| && users[r.value].role == Pengguna && EndsWith(users[r.value].id, Lower(code))
    ensures r.Some? ==> forall k :: 0 <= k < r.value ==>
      !(users[k].role == Pengguna && EndsWith(users[k].id, Lower(code)))
    ensures r.None? ==> forall k :: 0 <= k < |users| ==>
      !(users[k].role == Pengguna && EndsWith(users[k].id, Lower(code)))
  {
    FirstIndex(users, (u: User) => u.role == Pengguna && EndsWith(u.id, Lower(code)))
  }

  /** Upper- and lower-case spellings of a code find the same member. */
  lemma SearchIgnoresCase(users: seq<User>, code: string)
    ensures Search(users, Lower(code)) == Search(users, code)
  {
    LowerIdempotent(code);
  }

  /**
   * A member's whole lower-case id is a valid code: the search finds that
   * member, or an earlier member whose id ends the same way.
   */
  lemma {:induction false} FullIdFindsMember(users: seq<User>, k: nat)
    requires k < |users| && users[k].role == Pengguna && Lower(users[k].id) == users[k].id
    ensures Search(users, users[k].id).Some? && Search(users, users[k].id).value <= k
  {
    var id := users[k].id;
    assert EndsWith(id, Lower(id)) by {
      assert id[|id| - |id|..] == id;
    }
  }

  method Post(db: Db, caller: Caller, code: Option<string>) returns (r: Reply<MemberScan.MemberCard>)
    requires caller.role != Pengguna
    ensures (!Present(code) || |code.value| < 3) ==> r == Fail(400, CodeTooShort)
    ensures Present(code) && |code.value| >= 3 && Search(db.users, code.value).None? ==> r == Fail(404, CodeNotFound)
    ensures Present(code) && |code.value| >= 3 && Search(db.users, code.value).Some? ==>
      r == Ok(200, MemberScan.Card(db.users[Search(db.users, code.value).value]))
  {
    if !Present(code) || |code.value| < 3 {
      return Fail(400, CodeTooShort);
    }
    var found := Search(db.users, code.value);
    if found.None? {
      return Fail(404, CodeNotFound);
    }
    r := Ok(200, MemberScan.Card(db.users[found.value]));
  }
}
