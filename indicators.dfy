/**
 * The client's indicator catalog: six dimensions, each split into
 * sub-dimensions that list the indicators scored 1..5, and the colour
 * classes the pages use for a development-status label.
 */
module Indicators {
  import opened Wrappers
  import opened Text
  import opened Schema
  import ServerRoutes

  datatype Indicator = Indicator(code: string, name: string, description: string)

  datatype SubDimension = SubDimension(id: string, name: string, indicators: seq<Indicator>)

  /** A catalog dimension; `weight` is its percentage of the total score. */
  datatype Dimension = Dimension(id: int, name: string, weight: real, color: string, subDimensions: seq<SubDimension>)

  const PENDIDIKAN := SubDimension("1-A", "Pendidikan", [
    Indicator("1.1", "Akses Terhadap PAUD/TK/Sederajat", "Ketersediaan, Kemudahan Akses, dan APM"),
    Indicator("1.2", "Akses Terhadap SD/MI/Sederajat", "Kemudahan Akses dan APM"),
    Indicator("1.3", "Akses Terhadap SMP/MTs/Sederajat", "Kemudahan Akses dan APM"),
    Indicator("1.4", "Akses Terhadap SMA/SMK/MA/Sederajat", "Kemudahan Akses dan APM")
  ])

  const KESEHATAN := SubDimension("1-B", "Kesehatan", [
    Indicator("1.5", "Akses Terhadap Rumah Sakit", "Jarak dan waktu tempuh"),
    Indicator("1.6", "Akses Terhadap Puskesmas", "Jarak dan waktu tempuh"),
    Indicator("1.7", "Akses Terhadap Tenaga Kesehatan", "Keberadaan bidan/dokter"),
    Indicator("1.8", "Kesehatan Masyarakat", "Keberadaan Posyandu")
  ])

  const UTILITAS_DASAR := SubDimension("1-C", "Utilitas Dasar", [
    Indicator("1.9", "Akses Air Minum", "Sumber air layak"),
    Indicator("1.10", "Akses Jamban", "Kepemilikan jamban sehat"),
    Indicator("1.11", "Akses Listrik", "Penerangan rumah tangga"),
    Indicator("1.12", "Akses Informasi", "Sinyal telepon/internet"),
    Indicator("1.13", "Manajemen Sampah", "Pengelolaan sampah desa")
  ])

  const LAYANAN_DASAR := Dimension(1, "Layanan Dasar", 26.77, "#2563EB", [PENDIDIKAN, KESEHATAN, UTILITAS_DASAR])

  const AKTIVITAS_MASYARAKAT := SubDimension("2-A", "Aktivitas Masyarakat", [
    Indicator("2.1", "Gotong Royong", "Kegiatan kerja bakti"),
    Indicator("2.2", "Ruang Publik", "Ketersediaan taman/lapangan"),
    Indicator("2.3", "Kelompok Olahraga", "Kegiatan olahraga rutin"),
    Indicator("2.4", "Kegiatan Seni Budaya", "Kelompok kesenian")
  ])

  const FASILITAS_MASYARAKAT := SubDimension("2-B", "Fasilitas Masyarakat", [
    Indicator("2.5", "Fasilitas Olahraga", "Ketersediaan sarana"),
    Indicator("2.6", "Fasilitas Kesenian", "Ketersediaan sanggar/balai"),
    Indicator("2.7", "Keamanan Desa", "Siskamling/Pos kamling"),
    Indicator("2.8", "Konflik Sosial", "Kejadian konflik antar warga")
  ])

  const SOSIAL := Dimension(2, "Sosial", 13.39, "#16A34A", [AKTIVITAS_MASYARAKAT, FASILITAS_MASYARAKAT])

  const PRODUKSI_DESA := SubDimension("3-A", "Produksi Desa", [
    Indicator("3.1", "Produk Unggulan", "Keberadaan komoditas utama"),
    Indicator("3.2", "Industri Mikro", "Jumlah industri rumah tangga"),
    Indicator("3.3", "BUMDes", "Status keaktifan BUMDes")
  ])

  const FASILITAS_PENDUKUNG_EKONOMI := SubDimension("3-B", "Fasilitas Pendukung Ekonomi", [
    Indicator("3.4", "Pasar", "Ketersediaan pasar desa"),
    Indicator("3.5", "Toko/Warung", "Jumlah sarana perdagangan"),
    Indicator("3.6", "Lembaga Keuangan", "Akses Bank/Koperasi"),
    Indicator("3.7", "Akses Kredit", "Kemudahan pinjaman modal"),
    Indicator("3.8", "Layanan Transportasi", "Trayek angkutan umum"),
    Indicator("3.9", "Konektivitas Ekonomi", "Hubungan perdagangan antar wilayah"),
    Indicator("3.10", "Potensi Wisata", "Pengelolaan daya tarik wisata"),
    Indicator("3.11", "Hotel/Penginapan", "Sarana akomodasi"),
    Indicator("3.12", "Restoran/Rumah Makan", "Sarana kuliner")
  ])

  const EKONOMI := Dimension(3, "Ekonomi", 25.20, "#D97706", [PRODUKSI_DESA, FASILITAS_PENDUKUNG_EKONOMI])

  const PENGELOLAAN_LINGKUNGAN := SubDimension("4-A", "Pengelolaan Lingkungan", [
    Indicator("4.1", "Pencemaran Air", "Tingkat polusi perairan"),
    Indicator("4.2", "Pencemaran Tanah", "Tingkat polusi lahan"),
    Indicator("4.3", "Pencemaran Udara", "Kualitas udara desa")
  ])

  const PENANGGULANGAN_BENCANA := SubDimension("4-B", "Penanggulangan Bencana", [
    Indicator("4.4", "Mitigasi Bencana", "Upaya pencegahan"),
    Indicator("4.5", "Kejadian Bencana", "Frekuensi bencana alam")
  ])

  const LINGKUNGAN := Dimension(4, "Lingkungan", 14.17, "#0891B2", [PENGELOLAAN_LINGKUNGAN, PENANGGULANGAN_BENCANA])

  const KONDISI_AKSES_JALAN := SubDimension("5-A", "Kondisi Akses Jalan", [
    Indicator("5.1", "Kualitas Jalan", "Jenis permukaan jalan utama"),
    Indicator("5.2", "Lebar Jalan", "Kemampuan dilalui kendaraan"),
    Indicator("5.3", "Kondisi Jembatan", "Kelayakan jembatan desa")
  ])

  const KEMUDAHAN_AKSES := SubDimension("5-B", "Kemudahan Akses", [
    Indicator("5.4", "Akses ke Pusat Kota", "Jarak dan waktu tempuh"),
    Indicator("5.5", "Transportasi Desa", "Moda angkutan yang tersedia")
  ])

  const AKSESIBILITAS := Dimension(5, "Aksesibilitas", 7.87, "#7C3AED", [KONDISI_AKSES_JALAN, KEMUDAHAN_AKSES])

  const KELEMBAGAAN_DAN_PELAYANAN := SubDimension("6-A", "Kelembagaan dan Pelayanan Desa", [
    Indicator("6.1", "Kantor Desa", "Kelayakan gedung kantor"),
    Indicator("6.2", "Layanan Administrasi", "Kecepatan pelayanan surat"),
    Indicator("6.3", "Kualitas Perangkat", "Tingkat pendidikan perangkat desa")
  ])

  const TATA_KELOLA_KEUANGAN := SubDimension("6-B", "Tata Kelola Keuangan Desa", [
    Indicator("6.4", "Transparansi Dana", "Publikasi APBDes"),
    Indicator("6.5", "Ketepatan Waktu", "Penyusunan laporan keuangan")
  ])

  const TATA_KELOLA := Dimension(6, "Tata Kelola", 12.60, "#DB2777", [KELEMBAGAAN_DAN_PELAYANAN, TATA_KELOLA_KEUANGAN])

  const DIMENSIONS: seq<Dimension> := [LAYANAN_DASAR, SOSIAL, EKONOMI, LINGKUNGAN, AKSESIBILITAS, TATA_KELOLA]

  /** The codes of a list of indicators, in order. */
  function IndicatorCodes(indicators: seq<Indicator>): (r: seq<string>)
    ensures |r| == |indicators|
  {
    seq(|indicators|, i requires 0 <= i < |indicators| => indicators[i].code)
  }

  /** The codes of a dimension's indicators, sub-dimension after sub-dimension. */
  function SubDimensionCodes(subs: seq<SubDimension>): seq<string> {
    if subs == [] then [] else IndicatorCodes(subs[0].indicators) + SubDimensionCodes(subs[1..])
  }

  function Codes(d: Dimension): seq<string> {
    SubDimensionCodes(d.subDimensions)
  }

  /** The codes of the whole catalog, dimension after dimension. */
  function AllCodes(dims: seq<Dimension>): seq<string> {
    if dims == [] then [] else Codes(dims[0]) + AllCodes(dims[1..])
  }

  /** The code "d.k" of the k-th indicator of dimension d. */
  function Code(d: nat, k: nat): string {
    NatToString(d) + "." + NatToString(k)
  }

  /** The codes "d.from", "d.(from+1)", ..., n of them. */
  function CodeRange(d: nat, from: nat, n: nat): (r: seq<string>)
    ensures |r| == n
  {
    seq(n, j requires 0 <= j < n => Code(d, from + j))
  }

  lemma CodeRangeSplit(d: nat, from: nat, n: nat, m: nat)
    ensures CodeRange(d, from, n) + CodeRange(d, from + n, m) == CodeRange(d, from, n + m)
  {
  }

  lemma CodeShape(d: nat, k: nat)
    requires d < 10 && k < 20
    ensures k < 10 ==> Code(d, k) == [DigitChar(d), '.', DigitChar(k)]
    ensures k >= 10 ==> Code(d, k) == [DigitChar(d), '.', '1', DigitChar(k - 10)]
  {
    SingleDigitString(d);
    if k < 10 {
      SingleDigitString(k);
    } else {
      assert NatToString(k) == NatToString(k / 10) + [DigitChar(k % 10)];
      assert k / 10 == 1 && k % 10 == k - 10;
      SingleDigitString(1);
    }
  }

  /** Each sub-dimension numbers its indicators on from where the previous one stopped. */
  lemma PendidikanCodes()
    ensures IndicatorCodes(PENDIDIKAN.indicators) == CodeRange(1, 1, 4)
  {
    assert IndicatorCodes(PENDIDIKAN.indicators) == ["1.1", "1.2", "1.3", "1.4"];
    assert CodeRange(1, 1, 4) == [Code(1, 1), Code(1, 2), Code(1, 3), Code(1, 4)];
    CodeShape(1, 1); CodeShape(1, 2); CodeShape(1, 3); CodeShape(1, 4);
  }

  lemma KesehatanCodes()
    ensures IndicatorCodes(KESEHATAN.indicators) == CodeRange(1, 5, 4)
  {
    assert IndicatorCodes(KESEHATAN.indicators) == ["1.5", "1.6", "1.7", "1.8"];
    assert CodeRange(1, 5, 4) == [Code(1, 5), Code(1, 6), Code(1, 7), Code(1, 8)];
    CodeShape(1, 5); CodeShape(1, 6); CodeShape(1, 7); CodeShape(1, 8);
  }

  lemma UtilitasDasarCodes()
    ensures IndicatorCodes(UTILITAS_DASAR.indicators) == CodeRange(1, 9, 5)
  {
    assert IndicatorCodes(UTILITAS_DASAR.indicators) == ["1.9", "1.10", "1.11", "1.12", "1.13"];
    assert CodeRange(1, 9, 5) == [Code(1, 9), Code(1, 10), Code(1, 11), Code(1, 12), Code(1, 13)];
    CodeShape(1, 9); CodeShape(1, 10); CodeShape(1, 11); CodeShape(1, 12); CodeShape(1, 13);
  }

  lemma AktivitasMasyarakatCodes()
    ensures IndicatorCodes(AKTIVITAS_MASYARAKAT.indicators) == CodeRange(2, 1, 4)
  {
    assert IndicatorCodes(AKTIVITAS_MASYARAKAT.indicators) == ["2.1", "2.2", "2.3", "2.4"];
    assert CodeRange(2, 1, 4) == [Code(2, 1), Code(2, 2), Code(2, 3), Code(2, 4)];
    CodeShape(2, 1); CodeShape(2, 2); CodeShape(2, 3); CodeShape(2, 4);
  }

  lemma FasilitasMasyarakatCodes()
    ensures IndicatorCodes(FASILITAS_MASYARAKAT.indicators) == CodeRange(2, 5, 4)
  {
    assert IndicatorCodes(FASILITAS_MASYARAKAT.indicators) == ["2.5", "2.6", "2.7", "2.8"];
    assert CodeRange(2, 5, 4) == [Code(2, 5), Code(2, 6), Code(2, 7), Code(2, 8)];
    CodeShape(2, 5); CodeShape(2, 6); CodeShape(2, 7); CodeShape(2, 8);
  }

  lemma ProduksiDesaCodes()
    ensures IndicatorCodes(PRODUKSI_DESA.indicators) == CodeRange(3, 1, 3)
  {
    assert IndicatorCodes(PRODUKSI_DESA.indicators) == ["3.1", "3.2", "3.3"];
    assert CodeRange(3, 1, 3) == [Code(3, 1), Code(3, 2), Code(3, 3)];
    CodeShape(3, 1); CodeShape(3, 2); CodeShape(3, 3);
  }

  lemma FasilitasPendukungEkonomiCodes()
    ensures IndicatorCodes(FASILITAS_PENDUKUNG_EKONOMI.indicators) == CodeRange(3, 4, 9)
  {
    assert IndicatorCodes(FASILITAS_PENDUKUNG_EKONOMI.indicators) == ["3.4", "3.5", "3.6", "3.7", "3.8", "3.9", "3.10", "3.11", "3.12"];
    assert CodeRange(3, 4, 9) == [Code(3, 4), Code(3, 5), Code(3, 6), Code(3, 7), Code(3, 8), Code(3, 9), Code(3, 10), Code(3, 11), Code(3, 12)];
    CodeShape(3, 4); CodeShape(3, 5); CodeShape(3, 6); CodeShape(3, 7); CodeShape(3, 8); CodeShape(3, 9); CodeShape(3, 10); CodeShape(3, 11); CodeShape(3, 12);
  }

  lemma PengelolaanLingkunganCodes()
    ensures IndicatorCodes(PENGELOLAAN_LINGKUNGAN.indicators) == CodeRange(4, 1, 3)
  {
    assert IndicatorCodes(PENGELOLAAN_LINGKUNGAN.indicators) == ["4.1", "4.2", "4.3"];
    assert CodeRange(4, 1, 3) == [Code(4, 1), Code(4, 2), Code(4, 3)];
    CodeShape(4, 1); CodeShape(4, 2); CodeShape(4, 3);
  }

  lemma PenanggulanganBencanaCodes()
    ensures IndicatorCodes(PENANGGULANGAN_BENCANA.indicators) == CodeRange(4, 4, 2)
  {
    assert IndicatorCodes(PENANGGULANGAN_BENCANA.indicators) == ["4.4", "4.5"];
    assert CodeRange(4, 4, 2) == [Code(4, 4), Code(4, 5)];
    CodeShape(4, 4); CodeShape(4, 5);
  }

  lemma KondisiAksesJalanCodes()
    ensures IndicatorCodes(KONDISI_AKSES_JALAN.indicators) == CodeRange(5, 1, 3)
  {
    assert IndicatorCodes(KONDISI_AKSES_JALAN.indicators) == ["5.1", "5.2", "5.3"];
    assert CodeRange(5, 1, 3) == [Code(5, 1), Code(5, 2), Code(5, 3)];
    CodeShape(5, 1); CodeShape(5, 2); CodeShape(5, 3);
  }

  lemma KemudahanAksesCodes()
    ensures IndicatorCodes(KEMUDAHAN_AKSES.indicators) == CodeRange(5, 4, 2)
  {
    assert IndicatorCodes(KEMUDAHAN_AKSES.indicators) == ["5.4", "5.5"];
    assert CodeRange(5, 4, 2) == [Code(5, 4), Code(5, 5)];
    CodeShape(5, 4); CodeShape(5, 5);
  }

  lemma KelembagaanDanPelayananCodes()
    ensures IndicatorCodes(KELEMBAGAAN_DAN_PELAYANAN.indicators) == CodeRange(6, 1, 3)
  {
    assert IndicatorCodes(KELEMBAGAAN_DAN_PELAYANAN.indicators) == ["6.1", "6.2", "6.3"];
    assert CodeRange(6, 1, 3) == [Code(6, 1), Code(6, 2), Code(6, 3)];
    CodeShape(6, 1); CodeShape(6, 2); CodeShape(6, 3);
  }

  lemma TataKelolaKeuanganCodes()
    ensures IndicatorCodes(TATA_KELOLA_KEUANGAN.indicators) == CodeRange(6, 4, 2)
  {
    assert IndicatorCodes(TATA_KELOLA_KEUANGAN.indicators) == ["6.4", "6.5"];
    assert CodeRange(6, 4, 2) == [Code(6, 4), Code(6, 5)];
    CodeShape(6, 4); CodeShape(6, 5);
  }

  lemma LayananDasarCodes()
    ensures Codes(LAYANAN_DASAR) == CodeRange(1, 1, 13)
  {
    assert Codes(LAYANAN_DASAR) == IndicatorCodes(PENDIDIKAN.indicators) + IndicatorCodes(KESEHATAN.indicators) + IndicatorCodes(UTILITAS_DASAR.indicators) by {
      assert SubDimensionCodes(LAYANAN_DASAR.subDimensions[3..]) == [];
      assert SubDimensionCodes(LAYANAN_DASAR.subDimensions[2..]) == IndicatorCodes(UTILITAS_DASAR.indicators) + SubDimensionCodes(LAYANAN_DASAR.subDimensions[3..]);
      assert SubDimensionCodes(LAYANAN_DASAR.subDimensions[1..]) == IndicatorCodes(KESEHATAN.indicators) + SubDimensionCodes(LAYANAN_DASAR.subDimensions[2..]);
      assert SubDimensionCodes(LAYANAN_DASAR.subDimensions) == IndicatorCodes(PENDIDIKAN.indicators) + SubDimensionCodes(LAYANAN_DASAR.subDimensions[1..]);
    }
    PendidikanCodes();
    KesehatanCodes();
    UtilitasDasarCodes();
    CodeRangeSplit(1, 1, 4, 4);
    CodeRangeSplit(1, 1, 8, 5);
  }

  lemma SosialCodes()
    ensures Codes(SOSIAL) == CodeRange(2, 1, 8)
  {
    assert Codes(SOSIAL) == IndicatorCodes(AKTIVITAS_MASYARAKAT.indicators) + IndicatorCodes(FASILITAS_MASYARAKAT.indicators) by {
      assert SubDimensionCodes(SOSIAL.subDimensions[2..]) == [];
      assert SubDimensionCodes(SOSIAL.subDimensions[1..]) == IndicatorCodes(FASILITAS_MASYARAKAT.indicators) + SubDimensionCodes(SOSIAL.subDimensions[2..]);
      assert SubDimensionCodes(SOSIAL.subDimensions) == IndicatorCodes(AKTIVITAS_MASYARAKAT.indicators) + SubDimensionCodes(SOSIAL.subDimensions[1..]);
    }
    AktivitasMasyarakatCodes();
    FasilitasMasyarakatCodes();
    CodeRangeSplit(2, 1, 4, 4);
  }

  lemma EkonomiCodes()
    ensures Codes(EKONOMI) == CodeRange(3, 1, 12)
  {
    assert Codes(EKONOMI) == IndicatorCodes(PRODUKSI_DESA.indicators) + IndicatorCodes(FASILITAS_PENDUKUNG_EKONOMI.indicators) by {
      assert SubDimensionCodes(EKONOMI.subDimensions[2..]) == [];
      assert SubDimensionCodes(EKONOMI.subDimensions[1..]) == IndicatorCodes(FASILITAS_PENDUKUNG_EKONOMI.indicators) + SubDimensionCodes(EKONOMI.subDimensions[2..]);
      assert SubDimensionCodes(EKONOMI.subDimensions) == IndicatorCodes(PRODUKSI_DESA.indicators) + SubDimensionCodes(EKONOMI.subDimensions[1..]);
    }
    ProduksiDesaCodes();
    FasilitasPendukungEkonomiCodes();
    CodeRangeSplit(3, 1, 3, 9);
  }

  lemma LingkunganCodes()
    ensures Codes(LINGKUNGAN) == CodeRange(4, 1, 5)
  {
    assert Codes(LINGKUNGAN) == IndicatorCodes(PENGELOLAAN_LINGKUNGAN.indicators) + IndicatorCodes(PENANGGULANGAN_BENCANA.indicators) by {
      assert SubDimensionCodes(LINGKUNGAN.subDimensions[2..]) == [];
      assert SubDimensionCodes(LINGKUNGAN.subDimensions[1..]) == IndicatorCodes(PENANGGULANGAN_BENCANA.indicators) + SubDimensionCodes(LINGKUNGAN.subDimensions[2..]);
      assert SubDimensionCodes(LINGKUNGAN.subDimensions) == IndicatorCodes(PENGELOLAAN_LINGKUNGAN.indicators) + SubDimensionCodes(LINGKUNGAN.subDimensions[1..]);
    }
    PengelolaanLingkunganCodes();
    PenanggulanganBencanaCodes();
    CodeRangeSplit(4, 1, 3, 2);
  }

  lemma AksesibilitasCodes()
    ensures Codes(AKSESIBILITAS) == CodeRange(5, 1, 5)
  {
    assert Codes(AKSESIBILITAS) == IndicatorCodes(KONDISI_AKSES_JALAN.indicators) + IndicatorCodes(KEMUDAHAN_AKSES.indicators) by {
      assert SubDimensionCodes(AKSESIBILITAS.subDimensions[2..]) == [];
      assert SubDimensionCodes(AKSESIBILITAS.subDimensions[1..]) == IndicatorCodes(KEMUDAHAN_AKSES.indicators) + SubDimensionCodes(AKSESIBILITAS.subDimensions[2..]);
      assert SubDimensionCodes(AKSESIBILITAS.subDimensions) == IndicatorCodes(KONDISI_AKSES_JALAN.indicators) + SubDimensionCodes(AKSESIBILITAS.subDimensions[1..]);
    }
    KondisiAksesJalanCodes();
    KemudahanAksesCodes();
    CodeRangeSplit(5, 1, 3, 2);
  }

  lemma TataKelolaCodes()
    ensures Codes(TATA_KELOLA) == CodeRange(6, 1, 5)
  {
    assert Codes(TATA_KELOLA) == IndicatorCodes(KELEMBAGAAN_DAN_PELAYANAN.indicators) + IndicatorCodes(TATA_KELOLA_KEUANGAN.indicators) by {
      assert SubDimensionCodes(TATA_KELOLA.subDimensions[2..]) == [];
      assert SubDimensionCodes(TATA_KELOLA.subDimensions[1..]) == IndicatorCodes(TATA_KELOLA_KEUANGAN.indicators) + SubDimensionCodes(TATA_KELOLA.subDimensions[2..]);
      assert SubDimensionCodes(TATA_KELOLA.subDimensions) == IndicatorCodes(KELEMBAGAAN_DAN_PELAYANAN.indicators) + SubDimensionCodes(TATA_KELOLA.subDimensions[1..]);
    }
    KelembagaanDanPelayananCodes();
    TataKelolaKeuanganCodes();
    CodeRangeSplit(6, 1, 3, 2);
  }

  /** The number of indicators the catalog lists in each dimension. */
  const COUNTS: seq<nat> := [13, 8, 12, 5, 5, 5]

  /**
   * Dimension k + 1 lists its indicators as "(k+1).1", "(k+1).2", ... without
   * gaps: 13, 8, 12, 5, 5 and 5 of them in dimensions 1 to 6.
   */
  lemma CodesNumbered(k: nat)
    requires k < |DIMENSIONS|
    ensures |DIMENSIONS| == |COUNTS| == 6
    ensures DIMENSIONS[k].id == k + 1 && Codes(DIMENSIONS[k]) == CodeRange(k + 1, 1, COUNTS[k])
  {
    if k == 0 { LayananDasarCodes(); }
    else if k == 1 { SosialCodes(); }
    else if k == 2 { EkonomiCodes(); }
    else if k == 3 { LingkunganCodes(); }
    else if k == 4 { AksesibilitasCodes(); }
    else { TataKelolaCodes(); }
  }

  /** The catalog lists 48 indicators in all. */
  lemma CatalogSize()
    ensures |AllCodes(DIMENSIONS)| == 48
  {
    CodesNumbered(0); CodesNumbered(1); CodesNumbered(2); CodesNumbered(3); CodesNumbered(4); CodesNumbered(5);
    assert AllCodes(DIMENSIONS[5..]) == Codes(DIMENSIONS[5]) + AllCodes([]);
    assert |AllCodes(DIMENSIONS[4..])| == 10;
    assert |AllCodes(DIMENSIONS[3..])| == 15;
    assert |AllCodes(DIMENSIONS[2..])| == 27;
    assert |AllCodes(DIMENSIONS[1..])| == 35;
  }

  lemma SingleDigitString(d: nat)
    requires d < 10
    ensures NatToString(d) == [DigitChar(d)]
  {
  }

  /** A code "d.k" with a one-digit d determines both d and k. */
  lemma CodeInjective(d1: nat, k1: nat, d2: nat, k2: nat)
    requires 1 <= d1 <= 9 && 1 <= d2 <= 9
    requires Code(d1, k1) == Code(d2, k2)
    ensures d1 == d2 && k1 == k2
  {
    SingleDigitString(d1);
    SingleDigitString(d2);
    var c := Code(d1, k1);
    assert c[0] == DigitChar(d1) && c[0] == DigitChar(d2);
    assert NatToString(k1) == c[2..] == NatToString(k2);
    NatToStringInjective(k1, k2);
  }

  /** No two indicators of the catalog share a code. */
  lemma CodesUnique(k1: nat, j1: nat, k2: nat, j2: nat)
    requires k1 < |DIMENSIONS| && j1 < |Codes(DIMENSIONS[k1])|
    requires k2 < |DIMENSIONS| && j2 < |Codes(DIMENSIONS[k2])|
    requires Codes(DIMENSIONS[k1])[j1] == Codes(DIMENSIONS[k2])[j2]
    ensures k1 == k2 && j1 == j2
  {
    CodesNumbered(k1);
    CodesNumbered(k2);
    RangesDisjoint(k1 + 1, COUNTS[k1], j1, k2 + 1, COUNTS[k2], j2);
  }

  /** Codes numbered from 1 in single-digit dimensions differ unless dimension and position agree. */
  lemma RangesDisjoint(d1: nat, n1: nat, j1: nat, d2: nat, n2: nat, j2: nat)
    requires 1 <= d1 <= 9 && 1 <= d2 <= 9 && j1 < n1 && j2 < n2
    requires CodeRange(d1, 1, n1)[j1] == CodeRange(d2, 1, n2)[j2]
    ensures d1 == d2 && j1 == j2
  {
    CodeInjective(d1, j1 + 1, d2, j2 + 1);
  }

  /**
   * The server puts the value of an indicator of catalog dimension k into
   * server dimension k and no other, since the code starts with k's digit.
   */
  lemma ServerAssignsOwnDimension(k: nat, j: nat)
    requires k < |DIMENSIONS| && j < |Codes(DIMENSIONS[k])|
    ensures forall i :: 0 <= i < |ServerRoutes.DIMENSIONS| ==>
      (StartsWith(Codes(DIMENSIONS[k])[j], ServerRoutes.DIMENSIONS[i].prefix) <==> i == k)
  {
    CodesNumbered(k);
    OwnPrefix(k + 1, j + 1);
  }

  /** The code "d.k" starts with the server prefix of dimension i exactly when i is d's position. */
  lemma OwnPrefix(d: nat, k: nat)
    requires 1 <= d <= 6
    ensures forall i :: 0 <= i < |ServerRoutes.DIMENSIONS| ==>
      (StartsWith(Code(d, k), ServerRoutes.DIMENSIONS[i].prefix) <==> i == d - 1)
  {
    SingleDigitString(d);
    assert Code(d, k)[0] == DigitChar(d);
    ServerRoutes.PrefixesAreDigits();
  }

  /** The catalog names and weights are those of the server's dimension table, in the same order. */
  lemma CatalogMatchesServer()
    ensures |DIMENSIONS| == |ServerRoutes.DIMENSIONS|
    ensures forall k :: 0 <= k < |DIMENSIONS| ==>
      DIMENSIONS[k].name == ServerRoutes.DIMENSIONS[k].name &&
      DIMENSIONS[k].weight == ServerRoutes.DIMENSIONS[k].weight &&
      ServerRoutes.DIMENSIONS[k].prefix == NatToString(DIMENSIONS[k].id)
  {
    ServerRoutes.PrefixesAreDigits();
    forall k | 0 <= k < |DIMENSIONS| ensures ServerRoutes.DIMENSIONS[k].prefix == NatToString(DIMENSIONS[k].id) {
      SingleDigitString(k + 1);
    }
  }

  function CatalogWeight(dims: seq<Dimension>): real {
    if dims == [] then 0.0 else CatalogWeight(dims[..|dims| - 1]) + dims[|dims| - 1].weight
  }

  /** The catalog weights add up to exactly 100, as the server's do. */
  lemma CatalogWeightsSumTo100()
    ensures CatalogWeight(DIMENSIONS) == 100.0
  {
    CatalogMatchesServer();
    SameWeights(DIMENSIONS, ServerRoutes.DIMENSIONS);
    ServerRoutes.WeightsSumTo100();
  }

  lemma {:induction false} SameWeights(dims: seq<Dimension>, server: seq<ServerRoutes.Dimension>)
    requires |dims| == |server| && forall k :: 0 <= k < |dims| ==> dims[k].weight == server[k].weight
    ensures CatalogWeight(dims) == ServerRoutes.SumOfWeights(server)
  {
    if dims != [] {
      SameWeights(dims[..|dims| - 1], server[..|server| - 1]);
    }
  }

  /**
   * The badge classes for one Tailwind hue, e.g. "bg-green-100 text-green-800 border-green-200":
   * the hue names the background, the text and the border colour.
   */
  function Badge(hue: string): (r: string)
    ensures |r| == 3 * |hue| + 29
    ensures r[..3] == "bg-" && r[3..3 + |hue|] == hue
    ensures r[3 + |hue|..13 + |hue|] == "-100 text-" && r[13 + |hue|..13 + 2 * |hue|] == hue
    ensures r[13 + 2 * |hue|..25 + 2 * |hue|] == "-800 border-" && r[25 + 2 * |hue|..25 + 3 * |hue|] == hue
    ensures r[25 + 3 * |hue|..] == "-200"
  {
    var h := |hue|;
    var r := "bg-" + hue + "-100 text-" + hue + "-800 border-" + hue + "-200";
    assert r[..3] == "bg-" && r[3..3 + h] == hue;
    assert r[3 + h..13 + h] == "-100 text-" && r[13 + h..13 + 2 * h] == hue;
    assert r[13 + 2 * h..25 + 2 * h] == "-800 border-" && r[25 + 2 * h..25 + 3 * h] == hue;
    assert r[25 + 3 * h..] == "-200";
    r
  }

  const GRAY := Badge("gray")

  /** The colour classes of a status badge. */
  function ColorOf(s: Status): string {
    Badge(HueOf(s))
  }

  /** The status whose label, lower-cased, is `s`: the cases of the switch in `getStatusColor`. */
  function StatusOfLower(s: string): (r: Option<Status>)
    ensures r.Some? ==> s == ToLower(Label(r.value))
  {
    LowerLabels();
    if s == "mandiri" then Some(Mandiri)
    else if s == "maju" then Some(Maju)
    else if s == "berkembang" then Some(Berkembang)
    else if s == "tertinggal" then Some(Tertinggal)
    else if s == "sangat tertinggal" then Some(SangatTertinggal)
    else None
  }

  lemma LowerLabels()
    ensures ToLower(Label(Mandiri)) == "mandiri" && ToLower(Label(Maju)) == "maju"
    ensures ToLower(Label(Berkembang)) == "berkembang" && ToLower(Label(Tertinggal)) == "tertinggal"
    ensures ToLower(Label(SangatTertinggal)) == "sangat tertinggal"
  {
  }

  /** Every lower-cased label is recognised, as its own status. */
  lemma StatusOfLowerLabel(s: Status)
    ensures StatusOfLower(ToLower(Label(s))) == Some(s)
  {
    LowerLabels();
  }

  /** `getStatusColor(status)`; `None` stands for null and undefined. */
  function GetStatusColor(status: Option<string>): string {
    if status.None? then GRAY
    else match StatusOfLower(ToLower(status.value))
      case Some(s) => ColorOf(s)
      case None => GRAY
  }

  /** The five badge colours differ from each other and from the default. */
  lemma ColorsDistinct(s: Status, t: Status)
    ensures ColorOf(s) != GRAY
    ensures ColorOf(s) == ColorOf(t) ==> s == t
  {
    var hue := HueOf(s);
    assert ColorOf(s) == Badge(hue);
    if ColorOf(s) == GRAY {
      BadgeInjective(hue, "gray");
    }
    if ColorOf(s) == ColorOf(t) {
      assert ColorOf(t) == Badge(HueOf(t));
      BadgeInjective(hue, HueOf(t));
    }
  }

  /** The Tailwind hue of a status badge. */
  function HueOf(s: Status): string {
    match s
    case Mandiri => "green"
    case Maju => "blue"
    case Berkembang => "yellow"
    case Tertinggal => "orange"
    case SangatTertinggal => "red"
  }

  /** Different hues give different badge classes. */
  lemma BadgeInjective(a: string, b: string)
    requires Badge(a) == Badge(b)
    ensures a == b
  {
    assert |a| == |b|;
  }

  /**
   * A status string gets the colour of `s` exactly when it equals `s`'s
   * label up to letter case.
   */
  lemma StatusColorIff(status: Option<string>, s: Status)
    ensures GetStatusColor(status) == ColorOf(s) <==> status.Some? && ToLower(status.value) == ToLower(Label(s))
  {
    if status.Some? {
      StatusOfLowerLabel(s);
      match StatusOfLower(ToLower(status.value))
      case Some(t) => ColorsDistinct(t, s);
      case None => ColorsDistinct(s, s);
    }
  }

  /** Null, undefined and every string that is no label up to case get the gray default. */
  lemma StatusColorDefault(status: Option<string>)
    ensures GetStatusColor(status) == GRAY <==>
      status.None? || forall s: Status :: ToLower(status.value) != ToLower(Label(s))
  {
    if status.Some? {
      var r := StatusOfLower(ToLower(status.value));
      if r.Some? {
        ColorsDistinct(r.value, r.value);
      } else {
        forall s: Status ensures ToLower(status.value) != ToLower(Label(s)) {
          StatusOfLowerLabel(s);
        }
      }
    }
  }

  /** Matching ignores case: a status and its lower-case form get the same colour. */
  lemma StatusColorIgnoresCase(x: string)
    ensures GetStatusColor(Some(x)) == GetStatusColor(Some(ToLower(x)))
  {
    ToLowerIdempotent(x);
  }
}
