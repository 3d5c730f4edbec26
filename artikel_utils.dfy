/**
 * lib/artikel-utils.ts: which image URL an article shows. `gambar` is either
 * a legacy URL or a serialised `{desktop, tablet, mobile}` object; `parse`
 * stands for `JSON.parse` of such an object (None when it throws), with a
 * missing or empty field read as "".
 */
module ArtikelUtils {
  import opened Wrappers
  import opened Strings
  import opened Http

  datatype Device = Desktop | Tablet | Mobile

  datatype ImageUrls = ImageUrls(desktop: string, tablet: string, mobile: string)

  /** JavaScript's `a || b` on strings. */
  function Or(a: string, b: string): string {
    if a != "" then a else b
  }

  /** The first non-empty URL of a preference list, or "". */
  function FirstNonEmpty(urls: seq<string>): (r: string)
    ensures r == "" <==> forall i :: 0 <= i < |urls| ==> urls[i] == ""
    ensures r != "" ==> r in urls
    ensures forall i :: 0 <= i < |urls| && urls[i] != "" && (forall j :: 0 <= j < i ==> urls[j] == "") ==> r == urls[i]
  {
    if |urls| == 0 then ""
    else if urls[0] != "" then urls[0]
    else FirstNonEmpty(urls[1..])
  }

  /** Each device's order of preference among the three sizes. */
  function Preference(p: ImageUrls, device: Device): seq<string> {
    match device
    case Mobile => [p.mobile, p.tablet, p.desktop]
    case Tablet => [p.tablet, p.desktop, p.mobile]
    case Desktop => [p.desktop, p.tablet, p.mobile]
  }

  /** `getArtikelImageUrl(gambar, deviceType)`; the default device is `Desktop`. */
  function GetArtikelImageUrl(parse: string -> Option<ImageUrls>, gambar: Option<string>, device: Device): (r: string)
    // no URL exactly when there is no value, or it parses to an object with three empty sizes
    ensures r == "" <==> (!Present(gambar) ||
      (StartsWith(gambar.value, "{") && parse(gambar.value).Some? &&
       var p := parse(gambar.value).value; p.desktop == "" && p.tablet == "" && p.mobile == ""))
  {
    if !Present(gambar) then ""
    else if !StartsWith(gambar.value, "{") then gambar.value
    else match parse(gambar.value)
      case None => gambar.value
      case Some(p) =>
        match device
        case Mobile => Or(Or(Or(p.mobile, p.tablet), p.desktop), "")
        case Tablet => Or(Or(Or(p.tablet, p.desktop), p.mobile), "")
        case Desktop => Or(Or(Or(p.desktop, p.tablet), p.mobile), "")
  }

  /** `getResponsiveImageUrls(gambar)`. */
  function GetResponsiveImageUrls(parse: string -> Option<ImageUrls>, gambar: Option<string>): (r: ImageUrls)
    // a smaller size is never missing when a larger one is present
    ensures r.desktop != "" ==> r.tablet != ""
    ensures r.tablet != "" ==> r.mobile != ""
    ensures r.mobile == GetArtikelImageUrl(parse, gambar, Mobile)
  {
    if !Present(gambar) then ImageUrls("", "", "")
    else if !StartsWith(gambar.value, "{") then ImageUrls(gambar.value, gambar.value, gambar.value)
    else match parse(gambar.value)
      case None => ImageUrls(gambar.value, gambar.value, gambar.value)
      case Some(p) => ImageUrls(Or(p.desktop, ""), Or(Or(p.tablet, p.desktop), ""), Or(Or(Or(p.mobile, p.tablet), p.desktop), ""))
  }

  /** No image: the empty URL, for every device and every size. */
  lemma NoImage(parse: string -> Option<ImageUrls>, gambar: Option<string>, device: Device)
    requires !Present(gambar)
    ensures GetArtikelImageUrl(parse, gambar, device) == ""
    ensures GetResponsiveImageUrls(parse, gambar) == ImageUrls("", "", "")
  {
  }

  /** A legacy URL, or a value that fails to parse, is used as is everywhere. */
  lemma RawValueUsedAsIs(parse: string -> Option<ImageUrls>, g: string, device: Device)
    requires g != "" && (!StartsWith(g, "{") || parse(g).None?)
    ensures GetArtikelImageUrl(parse, Some(g), device) == g
    ensures GetResponsiveImageUrls(parse, Some(g)) == ImageUrls(g, g, g)
  {
  }

  /**
   * For a parsed object the device's URL is the first non-empty one in the
   * device's order of preference: it is "" only when all three are empty.
   */
  lemma {:induction false} ResolvedByPreference(parse: string -> Option<ImageUrls>, g: string, device: Device)
    requires StartsWith(g, "{") && parse(g).Some?
    ensures GetArtikelImageUrl(parse, Some(g), device) == FirstNonEmpty(Preference(parse(g).value, device))
  {
    var p := parse(g).value;
    assert g != "";
    var prefs := Preference(p, device);
    assert prefs[1..][1..][1..] == [];
    assert FirstNonEmpty(prefs[1..][1..]) == Or(prefs[2], "");
    assert FirstNonEmpty(prefs[1..]) == Or(prefs[1], Or(prefs[2], ""));
  }

  /** A parsed object with any non-empty URL yields a non-empty URL on every device. */
  lemma SomeUrlShows(parse: string -> Option<ImageUrls>, g: string, device: Device)
    requires StartsWith(g, "{") && parse(g).Some?
    requires var p := parse(g).value; p.desktop != "" || p.tablet != "" || p.mobile != ""
    ensures GetArtikelImageUrl(parse, Some(g), device) != ""
  {
    ResolvedByPreference(parse, g, device);
    var prefs := Preference(parse(g).value, device);
    assert prefs[0] != "" || prefs[1] != "" || prefs[2] != "";
  }

  /**
   * The responsive sizes borrow less: desktop never borrows, tablet only
   * from desktop, mobile from tablet then desktop, and the mobile size is
   * the URL a mobile device gets.
   */
  lemma ResponsiveBorrowing(parse: string -> Option<ImageUrls>, g: string)
    requires StartsWith(g, "{") && parse(g).Some?
    ensures var p := parse(g).value; var r := GetResponsiveImageUrls(parse, Some(g));
      && r.desktop == p.desktop
      && r.tablet == (if p.tablet != "" then p.tablet else p.desktop)
      && r.mobile == GetArtikelImageUrl(parse, Some(g), Mobile)
  {
    assert g != "";
  }
}
