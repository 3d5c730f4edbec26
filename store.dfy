/**
 * The relational store behind the routes: one sequence of rows per table,
 * in the order the database returns them when a query gives no `orderBy`.
 */
module Store {
  import opened Wrappers
  import opened Types

  class Db {
    var users: seq<User>
    var setoran: seq<Setoran>
    var pencairan: seq<Pencairan>
    var jenisSampah: seq<JenisSampah>
    var settings: seq<AppSetting>
    var artikel: seq<Artikel>

    constructor ()
      ensures users == [] && setoran == [] && pencairan == []
      ensures jenisSampah == [] && settings == [] && artikel == []
    {
      users, setoran, pencairan := [], [], [];
      jenisSampah, settings, artikel := [], [], [];
    }
  }

  /** The unique constraint on `user.email`. */
  predicate EmailsUnique(users: seq<User>) {
    forall i, j :: 0 <= i < j < |users| ==> users[i].email != users[j].email
  }

  predicate EmailTaken(users: seq<User>, email: string) {
    exists i | 0 <= i < |users| :: users[i].email == email
  }

  /** Registering a fresh email keeps emails unique. */
  lemma AppendFreshEmail(users: seq<User>, u: User)
    requires EmailsUnique(users) && !EmailTaken(users, u.email)
    ensures EmailsUnique(users + [u])
  {
  }

  /** The first row whose id is `id` (`findUnique({ where: { id } })`). */
  function FindUserIndex(users: seq<User>, id: string): (r: Option<nat>)
    ensures r.Some? ==> r.value < |users| && users[r.value].id == id
    ensures r.Some? ==> forall k :: 0 <= k < r.value ==> users[k].id != id
    ensures r.None? ==> forall k :: 0 <= k < |users| ==> users[k].id != id
  {
    if |users| == 0 then None
    else if users[0].id == id then Some(0)
    else
      match FindUserIndex(users[1..], id)
      case None => None
      case Some(k) => Some(k + 1)
  }

  function FindUser(users: seq<User>, id: string): (r: Option<User>)
    ensures r.Some? ==> r.value in users && r.value.id == id
    ensures r.None? ==> forall u :: u in users ==> u.id != id
  {
    match FindUserIndex(users, id)
    case None => None
    case Some(k) => Some(users[k])
  }
}
