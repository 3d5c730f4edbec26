/** POST /api/artikel/create: an admin publishes an article. */
module ArtikelCreate {
  import opened Wrappers
  import opened Strings
  import opened Types
  import opened Http
  import opened Store
  import opened ArtikelUtils

  const TitleAndBodyRequired := "Judul dan konten harus diisi"

  /** The `gambar` member of the request body as JSON delivers it. */
  datatype GambarInput = Absent | Null | Text(s: string) | Urls(u: ImageUrls)

  /**
   * The stored column: an object is serialised by `stringify` (JSON.stringify),
   * a string is kept as is even when empty, and null or a missing member is
   * stored as NULL.
   */
  function Stored(gambar: GambarInput, stringify: ImageUrls -> string): (r: Option<string>)
    ensures r.None? <==> gambar.Absent? || gambar.Null?
    ensures gambar.Text? ==> r == Some(gambar.s)
    ensures gambar.Urls? ==> r == Some(stringify(gambar.u))
  {
    match gambar
    case Absent => None
    case Null => None
    case Text(s) => Some(s)
    case Urls(u) => Some(stringify(u))
  }

  method Post(db: Db, caller: Caller, judul: Option<string>, konten: Option<string>,
              gambar: GambarInput, stringify: ImageUrls -> string, env: Env)
    returns (r: Reply<Artikel>)
    requires caller.role == Admin
    modifies db`artikel
    ensures !Present(judul) || !Present(konten) ==>
      r == Fail(400, TitleAndBodyRequired) && db.artikel == old(db.artikel)
    ensures Present(judul) && Present(konten) ==>
      && r == Ok(201, Artikel(env.id, judul.value, konten.value, Stored(gambar, stringify), caller.id, env.now))
      && db.artikel == old(db.artikel) + [r.value]
  {
    if !Present(judul) || !Present(konten) {
      return Fail(400, TitleAndBodyRequired);
    }
    var a := Artikel(env.id, judul.value, konten.value, Stored(gambar, stringify), caller.id, env.now);
    db.artikel := db.artikel + [a];
    r := Ok(201, a);
  }

  /**
   * A set of URLs stored by Post is read back by getArtikelImageUrl: when the
   * serialisation parses back to the same object, every device gets the
   * first non-empty URL of its order of preference, so the desktop URL on
   * the default device.
   */
  lemma StoredUrlsResolve(parse: string -> Option<ImageUrls>, stringify: ImageUrls -> string, u: ImageUrls, device: Device)
    requires parse(stringify(u)) == Some(u) && StartsWith(stringify(u), "{")
    ensures GetArtikelImageUrl(parse, Stored(Urls(u), stringify), device) == FirstNonEmpty(Preference(u, device))
    ensures u.desktop != "" ==> GetArtikelImageUrl(parse, Stored(Urls(u), stringify), Desktop) == u.desktop
  {
    ResolvedByPreference(parse, stringify(u), device);
    ResolvedByPreference(parse, stringify(u), Desktop);
  }

  /** A legacy URL stored by Post is shown unchanged on every device. */
  lemma StoredLegacyUrlResolves(parse: string -> Option<ImageUrls>, stringify: ImageUrls -> string, url: string, device: Device)
    requires url != "" && !StartsWith(url, "{")
    ensures GetArtikelImageUrl(parse, Stored(Text(url), stringify), device) == url
  {
  }
}
