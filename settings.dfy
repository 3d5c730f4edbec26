/** app/api/settings/route.ts: the key/value application settings. */
module Settings {
  import opened Wrappers
  import opened Strings
  import opened Seqs
  import opened Types
  import opened Http
  import opened Store

  const KeyAndValueRequired := "setting_key dan setting_value diperlukan"
  const CsWhatsappKey := "cs_whatsapp_number"
  const CsWhatsappDescription := "Nomor WhatsApp Customer Service"

  /** One entry of the GET object. */
  datatype SettingView = SettingView(value: string, description: Option<string>)

  function View(s: AppSetting): SettingView {
    SettingView(s.value, s.description)
  }

  /** The unique constraint on `setting_key`. */
  predicate KeysUnique(xs: seq<AppSetting>) {
    forall i, j :: 0 <= i < j < |xs| ==> xs[i].key != xs[j].key
  }

  /** Rows sharing a key are the same row; unlike `KeysUnique`, this survives reordering. */
  predicate KeyFunctional(xs: seq<AppSetting>) {
    forall a, b :: a in xs && b in xs && a.key == b.key ==> a == b
  }

  lemma UniqueIsFunctional(xs: seq<AppSetting>)
    requires KeysUnique(xs)
    ensures KeyFunctional(xs)
  {
    forall a, b | a in xs && b in xs && a.key == b.key
      ensures a == b
    {
      var i :| 0 <= i < |xs| && xs[i] == a;
      var j :| 0 <= j < |xs| && xs[j] == b;
      assert !(i < j) && !(j < i);
    }
  }

  /** The object the `forEach` builds: each row in turn writes its key, so a later row wins. */
  function ToMap(xs: seq<AppSetting>): (r: map<string, SettingView>)
    ensures forall s :: s in xs ==> s.key in r
    ensures |xs| > 0 ==> r[xs[|xs| - 1].key] == View(xs[|xs| - 1])
  {
    if |xs| == 0 then map[] else ToMap(xs[..|xs| - 1])[xs[|xs| - 1].key := View(xs[|xs| - 1])]
  }

  /** One more row writes its own key over whatever the earlier rows left. */
  lemma ToMapSnoc(xs: seq<AppSetting>, x: AppSetting)
    ensures ToMap(xs + [x]) == ToMap(xs)[x.key := View(x)]
  {
    assert (xs + [x])[..|xs|] == xs;
  }

  /** The object has exactly the stored keys, each mapped to its own row when keys are unique. */
  lemma ToMapSpec(xs: seq<AppSetting>)
    ensures ToMap(xs).Keys == set s | s in xs :: s.key
    ensures KeyFunctional(xs) ==> forall s :: s in xs ==> ToMap(xs)[s.key] == View(s)
  {
    ToMapKeys(xs);
    if KeyFunctional(xs) {
      ToMapValues(xs);
    }
  }

  lemma {:induction false} ToMapKeys(xs: seq<AppSetting>)
    ensures ToMap(xs).Keys == set s | s in xs :: s.key
  {
    if |xs| > 0 {
      var init, last := xs[..|xs| - 1], xs[|xs| - 1];
      ToMapKeys(init);
      assert xs == init + [last];
      ToMapSnoc(init, last);
      assert (set s | s in xs :: s.key) == (set s | s in init :: s.key) + {last.key};
    }
  }

  lemma {:induction false} ToMapValues(xs: seq<AppSetting>)
    requires KeyFunctional(xs)
    ensures forall s :: s in xs ==> ToMap(xs)[s.key] == View(s)
  {
    if |xs| > 0 {
      var init, last := xs[..|xs| - 1], xs[|xs| - 1];
      assert xs == init + [last];
      assert KeyFunctional(init);
      ToMapValues(init);
      ToMapSnoc(init, last);
      forall s | s in xs
        ensures ToMap(xs)[s.key] == View(s)
      {
        if s.key == last.key {
          assert s == last;
        } else {
          assert s in init;
        }
      }
    }
  }

  /** `orderBy: { setting_key: 'asc' }`. */
  predicate KeyOrder(a: AppSetting, b: AppSetting) {
    StrLe(a.key, b.key)
  }

  lemma KeyOrderIsOrder()
    ensures TotalPreorder(KeyOrder)
  {
    forall a: AppSetting, b: AppSetting
      ensures KeyOrder(a, b) || KeyOrder(b, a)
    {
      StrLeTotal(a.key, b.key);
    }
    forall a: AppSetting, b: AppSetting, c: AppSetting | KeyOrder(a, b) && KeyOrder(b, c)
      ensures KeyOrder(a, c)
    {
      StrLeTransitive(a.key, b.key, c.key);
    }
  }

  /** Any reordering of the rows builds an object with the keys and, for unique keys, the rows of the original. */
  lemma SortedMapSpec(xs: seq<AppSetting>, data: seq<AppSetting>)
    requires multiset(data) == multiset(xs)
    ensures ToMap(data).Keys == set s | s in xs :: s.key
    ensures KeysUnique(xs) ==> forall s :: s in xs ==> ToMap(data)[s.key] == View(s)
  {
    assert forall s :: s in data <==> s in xs by {
      assert forall s :: s in data <==> s in multiset(data);
      assert forall s :: s in xs <==> s in multiset(xs);
    }
    ToMapSpec(data);
    if KeysUnique(xs) {
      UniqueIsFunctional(xs);
    }
  }

  /** GET: the stored rows as an object keyed by `setting_key`. */
  method Get(db: Db, caller: Caller) returns (r: Reply<map<string, SettingView>>)
    ensures r.Ok? && r.status == 200
    ensures r.value.Keys == set s | s in db.settings :: s.key
    ensures KeysUnique(db.settings) ==> forall s :: s in db.settings ==> r.value[s.key] == View(s)
  {
    KeyOrderIsOrder();
    var data := Sort(db.settings, KeyOrder);
    var settings: map<string, SettingView> := map[];
    for i := 0 to |data|
      invariant settings == ToMap(data[..i])
    {
      ToMapSnoc(data[..i], data[i]);
      assert data[..i + 1] == data[..i] + [data[i]];
      settings := settings[data[i].key := View(data[i])];
    }
    assert data[..|data|] == data;
    SortedMapSpec(db.settings, data);
    r := Ok(200, settings);
  }

  /** The row holding `key`, if any (`where: { setting_key }`). */
  function FindKey(xs: seq<AppSetting>, key: string): (r: Option<nat>)
    ensures r.Some? ==> r.value < |xs| && xs[r.value].key == key
    ensures r.None? ==> forall k :: 0 <= k < |xs| ==> xs[k].key != key
  {
    FirstIndex(xs, (s: AppSetting) => s.key == key)
  }

  /** The description a newly created row gets. */
  function NewDescription(key: string): Option<string> {
    if key == CsWhatsappKey then Some(CsWhatsappDescription) else None
  }

  /** `upsert`: an existing row gets the new value only; a new key is appended. */
  function Upsert(xs: seq<AppSetting>, key: string, value: string): (r: seq<AppSetting>)
    ensures FindKey(xs, key).Some? ==> |r| == |xs|
    ensures FindKey(xs, key).None? ==> |r| == |xs| + 1 && r[..|xs|] == xs
    ensures exists s :: s in r && s.key == key && s.value == value
  {
    match FindKey(xs, key)
    case Some(k) =>
      var r := xs[k := xs[k].(value := value)];
      assert r[k] in r;
      r
    case None =>
      var r := xs + [AppSetting(key, value, NewDescription(key))];
      assert r[|xs|] in r;
      r
  }

  /**
   * After an upsert, the key is held by exactly one row, which carries the
   * new value and keeps an existing description; the row of every other key
   * is untouched; and keys stay unique.
   */
  lemma UpsertSpec(xs: seq<AppSetting>, key: string, value: string)
    requires KeysUnique(xs)
    ensures KeysUnique(Upsert(xs, key, value))
    ensures forall s :: s in Upsert(xs, key, value) && s.key == key ==> s.value == value
    ensures exists s :: s in Upsert(xs, key, value) && s.key == key
    ensures forall s: AppSetting :: s.key != key ==> (s in Upsert(xs, key, value) <==> s in xs)
    ensures forall s :: s in xs && s.key == key ==>
      AppSetting(key, value, s.description) in Upsert(xs, key, value)
    ensures (forall s :: s in xs ==> s.key != key) ==>
      AppSetting(key, value, NewDescription(key)) in Upsert(xs, key, value)
  {
    var ys := Upsert(xs, key, value);
    match FindKey(xs, key)
    case Some(k) =>
      assert ys[k] == xs[k].(value := value);
      forall s: AppSetting | s.key != key
        ensures s in ys <==> s in xs
      {
        if s in xs {
          var i :| 0 <= i < |xs| && xs[i] == s;
          assert i != k && ys[i] == s;
        }
        if s in ys {
          var i :| 0 <= i < |ys| && ys[i] == s;
          assert i != k && xs[i] == s;
        }
      }
      forall s | s in ys && s.key == key
        ensures s.value == value
      {
        var i :| 0 <= i < |ys| && ys[i] == s;
        assert i == k;
      }
      forall s | s in xs && s.key == key
        ensures AppSetting(key, value, s.description) in ys
      {
        var i :| 0 <= i < |xs| && xs[i] == s;
        assert i == k;
      }
    case None =>
      assert ys[|xs|] == AppSetting(key, value, NewDescription(key));
  }

  /**
   * Reading the rows back after an upsert, in whatever order the query
   * returns them, shows the new value under the key and every other key's
   * own row unchanged.
   */
  lemma UpsertThenGet(xs: seq<AppSetting>, key: string, value: string, zs: seq<AppSetting>)
    requires KeysUnique(xs) && forall s :: s in zs <==> s in Upsert(xs, key, value)
    ensures key in ToMap(zs) && ToMap(zs)[key].value == value
    ensures forall s :: s in xs && s.key != key ==> s.key in ToMap(zs) && ToMap(zs)[s.key] == View(s)
  {
    var ys := Upsert(xs, key, value);
    UpsertSpec(xs, key, value);
    UniqueIsFunctional(ys);
    assert KeyFunctional(zs);
    ToMapSpec(zs);
    var s :| s in ys && s.key == key;
    assert s in zs;
  }

  /** PUT: a key and a value are required; then the upsert. */
  method Put(db: Db, caller: Caller, key: Option<string>, value: Option<string>) returns (r: Reply<AppSetting>)
    requires caller.role == Admin
    modifies db`settings
    ensures !Present(key) || value.None? ==>
      r == Fail(400, KeyAndValueRequired) && db.settings == old(db.settings)
    ensures Present(key) && value.Some? ==>
      && db.settings == Upsert(old(db.settings), key.value, value.value)
      && r.Ok? && r.status == 200 && r.value in db.settings
      && r.value.key == key.value && r.value.value == value.value
  {
    if !Present(key) || value.None? {
      return Fail(400, KeyAndValueRequired);
    }
    var found := FindKey(db.settings, key.value);
    var row: AppSetting;
    if found.Some? {
      row := db.settings[found.value].(value := value.value);
      db.settings := db.settings[found.value := row];
    } else {
      row := AppSetting(key.value, value.value,
                        if key.value == CsWhatsappKey then Some(CsWhatsappDescription) else None);
      db.settings := db.settings + [row];
    }
    r := Ok(200, row);
  }
}
