/**
 * The records of lib/types.ts and their enumerations. Money and weight
 * are integers in abstract units; timestamps are integer clock readings.
 * Optional TypeScript members (`x?: T`, or a nullable column) are `Option`s.
 */
module Types {
  import opened Wrappers

  datatype Role = Admin | Pengelola | Pengguna {
    function Name(): string {
      match this
      case Admin => "admin"
      case Pengelola => "pengelola"
      case Pengguna => "pengguna"
    }
  }

  /** The role a stored string names, if it names one. */
  function ParseRole(s: string): (r: Option<Role>)
    ensures r.Some? ==> r.value.Name() == s
    ensures forall role: Role :: role.Name() == s ==> r == Some(role)
  {
    if s == "admin" then Some(Admin)
    else if s == "pengelola" then Some(Pengelola)
    else if s == "pengguna" then Some(Pengguna)
    else None
  }

  /** How a deposit reaches the bank. */
  datatype Metode = PickUp | DropOff {
    function Name(): string {
      match this
      case PickUp => "pick-up"
      case DropOff => "drop-off"
    }
  }

  function ParseMetode(s: string): (r: Option<Metode>)
    ensures r.Some? ==> r.value.Name() == s
    ensures forall m: Metode :: m.Name() == s ==> r == Some(m)
  {
    if s == "pick-up" then Some(PickUp)
    else if s == "drop-off" then Some(DropOff)
    else None
  }

  datatype SetoranStatus = SetoranPending | Validated | SetoranRejected {
    function Name(): string {
      match this
      case SetoranPending => "pending"
      case Validated => "validated"
      case SetoranRejected => "rejected"
    }
  }

  function ParseSetoranStatus(s: string): (r: Option<SetoranStatus>)
    ensures r.Some? ==> r.value.Name() == s
    ensures forall st: SetoranStatus :: st.Name() == s ==> r == Some(st)
  {
    if s == "pending" then Some(SetoranPending)
    else if s == "validated" then Some(Validated)
    else if s == "rejected" then Some(SetoranRejected)
    else None
  }

  datatype PencairanStatus = PencairanPending | Approved | PencairanRejected {
    function Name(): string {
      match this
      case PencairanPending => "pending"
      case Approved => "approved"
      case PencairanRejected => "rejected"
    }
  }

  function ParsePencairanStatus(s: string): (r: Option<PencairanStatus>)
    ensures r.Some? ==> r.value.Name() == s
    ensures forall st: PencairanStatus :: st.Name() == s ==> r == Some(st)
  {
    if s == "pending" then Some(PencairanPending)
    else if s == "approved" then Some(Approved)
    else if s == "rejected" then Some(PencairanRejected)
    else None
  }

  /**
   * A member of any role. `passwordHash` is what the hashing library
   * returned at creation; the QR image column is not modelled.
   */
  datatype User = User(
    id: string,
    namaLengkap: string,
    email: string,
    passwordHash: string,
    noHp: Option<string>,
    kelurahan: Option<string>,
    kecamatan: Option<string>,
    kabupaten: Option<string>,
    detailAlamat: Option<string>,
    role: Role,
    qrData: Option<string>,
    saldo: Option<int>,
    profileCompleted: bool,
    createdAt: int)

  /** `Number(user.saldo ?? 0)`: the balance, a missing one counting as 0. */
  function SaldoOf(u: User): int {
    u.saldo.GetOr(0)
  }

  /**
   * A waste deposit. `metode` keeps the string the client sent: the
   * creating route checks only that it is present.
   */
  datatype Setoran = Setoran(
    id: string,
    userId: string,
    jenisSampah: string,
    beratSampah: Option<int>,
    hargaPerKg: Option<int>,
    totalHarga: Option<int>,
    metode: string,
    status: SetoranStatus,
    pengelolaId: Option<string>,
    tanggalSetor: int,
    tanggalValidasi: Option<int>)

  /** A cash-out request. */
  datatype Pencairan = Pencairan(
    id: string,
    userId: string,
    nominal: int,
    status: PencairanStatus,
    pengelolaId: Option<string>,
    tanggalRequest: int,
    tanggalPencairan: Option<int>,
    catatan: Option<string>)

  /** An article; `gambar` is a legacy URL or a serialised set of URLs. */
  datatype Artikel = Artikel(
    id: string,
    judul: string,
    konten: string,
    gambar: Option<string>,
    adminId: string,
    createdAt: int)

  /** A waste type of the catalog. */
  datatype JenisSampah = JenisSampah(id: string, nama: string, isActive: bool)

  /** One row of the application settings table. */
  datatype AppSetting = AppSetting(key: string, value: string, description: Option<string>)

  /** A deposit as created: every validation field absent. */
  predicate Unvalidated(s: Setoran) {
    && s.beratSampah.None? && s.hargaPerKg.None? && s.totalHarga.None?
    && s.pengelolaId.None? && s.tanggalValidasi.None?
  }
}
