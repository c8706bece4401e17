/**
 * How the loader turns one GeoNames row into a place of the world graph:
 * the name fix-up, the collection and `geonameId` chosen by feature code,
 * and the collection and key under which the place's parent is looked up
 * (world/scripts/loadPlaces.js).
 */
module Places {
  import opened Wrappers
  import opened Text

  /** The vertex collections of the graph, coarsest first. */
  datatype Level = World | Countries | Adm1 | Adm2 | Adm3 | Adm4 | Adm5

  /** The collection's name in the database. */
  function Name(l: Level): string
  {
    match l
    case World => "world"
    case Countries => "countries"
    case Adm1 => "adm1"
    case Adm2 => "adm2"
    case Adm3 => "adm3"
    case Adm4 => "adm4"
    case Adm5 => "adm5"
  }

  /** Depth in the hierarchy: 0 for `world`, 1 for `countries`, n + 1 for `admn`. */
  function Rank(l: Level): nat
  {
    match l
    case World => 0
    case Countries => 1
    case Adm1 => 2
    case Adm2 => 3
    case Adm3 => 4
    case Adm4 => 5
    case Adm5 => 6
  }

  /** The collection `admn`, for n in 1..5. */
  function AdmLevel(n: nat): (l: Level)
    requires 1 <= n <= 5
    ensures Rank(l) == n + 1
  {
    if n == 1 then Adm1 else if n == 2 then Adm2 else if n == 3 then Adm3
    else if n == 4 then Adm4 else Adm5
  }

  /** A GeoNames row has exactly this many tab-separated fields. */
  const FIELD_COUNT := 19

  /** Field positions of a GeoNames row. */
  const ID := 0
  const NAME := 1
  const ALTERNATE_NAMES := 3
  const LATITUDE := 4
  const LONGITUDE := 5
  const FEATURE_CODE := 7
  const COUNTRY_CODE := 8
  const CC2 := 9
  const ADMIN1 := 10
  const POPULATION := 14

  /**
   * Latitude and longitude as the text of their fields: the loader's
   * `parseFloat` is not part of this model.
   */
  datatype Geolocation = Geolocation(latitude: string, longitude: string)

  /** A place document; `population` is the text `parseInt` would read. */
  datatype Vertex = Vertex(
    geonameId: string,
    name: string,
    alternateNames: seq<string>,
    geolocation: Geolocation,
    population: string)

  /** A row the loader keeps: its collection, its document and its fields. */
  datatype Place = Place(level: Level, vertex: Vertex, fields: seq<string>)

  /**
   * The name and alternate names stored for a row: the alternate names are
   * the comma-separated field; an empty name is replaced by the first
   * alternate; the name is appended to the alternates unless already there.
   */
  function NormaliseNames(name: string, alternates: string): (r: (string, seq<string>))
    ensures var split := Split(alternates, ',');
      && (name != "" ==> r.0 == name)
      && (name == "" ==> r.0 == split[0])
      && r.0 in r.1
      && split <= r.1
      && |r.1| == |split| + (if r.0 in split then 0 else 1)
  {
    var alternateNames := Split(alternates, ',');
    var n := if name == "" && alternateNames[0] != "" then alternateNames[0] else name;
    if n in alternateNames then (n, alternateNames) else (n, alternateNames + [n])
  }

  /** An admin code that selects a level for ADMD rows: present and not "0". */
  predicate IsSet(code: string)
  {
    code != "" && code != "0"
  }

  /** The country code followed by admin codes 1..n. */
  function AdminPath(f: seq<string>, n: nat): (p: seq<string>)
    requires |f| == FIELD_COUNT && n <= 4
    ensures |p| == n + 1
  {
    [f[COUNTRY_CODE]] + f[ADMIN1..ADMIN1 + n]
  }

  /** Admin code n (1..4) of a row. */
  function AdminCode(f: seq<string>, n: nat): string
    requires |f| == FIELD_COUNT && 1 <= n <= 4
  {
    f[ADMIN1 + n - 1]
  }

  /**
   * For an ADMD row, the deepest admin level (1..4) whose code is set, or 0
   * when none is.
   */
  function DeepestSetAdmin(f: seq<string>): (d: nat)
    requires |f| == FIELD_COUNT
    ensures d <= 4
    ensures d > 0 ==> IsSet(AdminCode(f, d))
    ensures forall m :: d < m <= 4 ==> !IsSet(AdminCode(f, m))
  {
    if IsSet(f[13]) then 4
    else if IsSet(f[12]) then 3
    else if IsSet(f[11]) then 2
    else if IsSet(f[10]) then 1
    else 0
  }

  /** Feature codes of political entities stored as countries. */
  predicate IsCountryCode(code: string)
  {
    code in {"PCL", "PCLD", "PCLF", "PCLI", "PCLIX", "PCLS"}
  }

  /** The territories stored as countries, because they parent other places. */
  predicate IsParentTerritory(cc: string)
  {
    cc in {"AS", "EH", "SJ"}
  }

  /**
   * The collection and `geonameId` of a 19-field row, or None when the row
   * is not of interest.
   */
  function DeriveKey(f: seq<string>): (r: Option<(Level, string)>)
    requires |f| == FIELD_COUNT
    ensures r.Some? <==>
      f[FEATURE_CODE] in {"ADM1", "ADM2", "ADM3", "ADM4", "ADM5", "ADMD"}
      || IsCountryCode(f[FEATURE_CODE])
      || (f[FEATURE_CODE] == "TERR" && IsParentTerritory(f[COUNTRY_CODE]))
    ensures r.Some? ==> r.value.0 != World
  {
    var cc := f[COUNTRY_CODE];
    var prefix := cc + "/";
    match f[FEATURE_CODE]
    case "ADM1" => Some((Adm1, prefix + f[10]))
    case "ADM2" => Some((Adm2, prefix + f[10] + "/" + f[11]))
    case "ADM3" => Some((Adm3, prefix + f[10] + "/" + f[11] + "/" + f[12]))
    case "ADM4" => Some((Adm4, prefix + f[10] + "/" + f[11] + "/" + f[12] + "/" + f[13]))
    case "ADM5" =>
      Some((Adm5, prefix + f[10] + "/" + f[11] + "/" + f[12] + "/" + f[13] + "/" + f[ID]))
    case "ADMD" =>
      if IsSet(f[13]) then
        Some((Adm5, prefix + f[10] + "/" + f[11] + "/" + f[12] + "/" + f[13] + "/" + f[ID]))
      else if IsSet(f[12]) then
        Some((Adm4, prefix + f[10] + "/" + f[11] + "/" + f[12] + "/" + f[ID]))
      else if IsSet(f[11]) then
        Some((Adm3, prefix + f[10] + "/" + f[11] + "/" + f[ID]))
      else if IsSet(f[10]) then
        Some((Adm2, prefix + f[10] + "/" + f[ID]))
      else
        Some((Adm1, prefix + f[ID]))
    case "PCL" | "PCLD" | "PCLF" | "PCLI" | "PCLIX" | "PCLS" => Some((Countries, cc))
    case "TERR" =>
      if cc == "AS" || cc == "EH" || cc == "SJ" then Some((Countries, cc)) else None
    case _ => None
  }

  /** Joining AdminPath(f, n + 1) adds "/" and admin code n + 1 to Join(AdminPath(f, n)). */
  lemma AdminPathSnoc(f: seq<string>, n: nat)
    requires |f| == FIELD_COUNT && n < 4
    ensures AdminPath(f, n + 1) == AdminPath(f, n) + [f[ADMIN1 + n]]
    ensures Join(AdminPath(f, n + 1), '/') == Join(AdminPath(f, n), '/') + "/" + f[ADMIN1 + n]
  {
    assert f[ADMIN1..ADMIN1 + n + 1] == f[ADMIN1..ADMIN1 + n] + [f[ADMIN1 + n]];
    assert AdminPath(f, n + 1) == AdminPath(f, n) + [f[ADMIN1 + n]];
    JoinSnoc(AdminPath(f, n), f[ADMIN1 + n], '/');
  }

  /** The '/'-joined admin paths spelled out as the loader concatenates them. */
  lemma AdminPathJoins(f: seq<string>)
    requires |f| == FIELD_COUNT
    ensures Join(AdminPath(f, 0), '/') == f[8]
    ensures Join(AdminPath(f, 1), '/') == f[8] + "/" + f[10]
    ensures Join(AdminPath(f, 2), '/') == f[8] + "/" + f[10] + "/" + f[11]
    ensures Join(AdminPath(f, 3), '/') == f[8] + "/" + f[10] + "/" + f[11] + "/" + f[12]
    ensures Join(AdminPath(f, 4), '/') == f[8] + "/" + f[10] + "/" + f[11] + "/" + f[12] + "/" + f[13]
  {
    assert AdminPath(f, 0) == [f[8]];
    AdminPathSnoc(f, 0);
    AdminPathSnoc(f, 1);
    AdminPathSnoc(f, 2);
    AdminPathSnoc(f, 3);
  }

  /**
   * ADM1..ADM5 rows go to `adm1`..`adm5`, keyed by the country code and
   * admin codes 1..n joined by '/'; only ADM5 appends the row's own id.
   */
  lemma AdmKeys(f: seq<string>)
    requires |f| == FIELD_COUNT
    ensures forall n :: 1 <= n <= 4 && f[FEATURE_CODE] == "ADM" + [Digit(n)] ==>
      DeriveKey(f) == Some((AdmLevel(n), Join(AdminPath(f, n), '/')))
    ensures f[FEATURE_CODE] == "ADM5" ==>
      DeriveKey(f) == Some((Adm5, Join(AdminPath(f, 4) + [f[ID]], '/')))
  {
    AdminPathJoins(f);
    JoinSnoc(AdminPath(f, 4), f[ID], '/');
    forall n | 1 <= n <= 4 && f[FEATURE_CODE] == "ADM" + [Digit(n)]
      ensures DeriveKey(f) == Some((AdmLevel(n), Join(AdminPath(f, n), '/')))
    {
      assert "ADM" + [Digit(n)] == ['A', 'D', 'M', Digit(n)];
    }
  }

  /**
   * An ADMD row goes one level below the deepest admin code that is set
   * (probing admin4, then 3, 2, 1), keyed by the country code, the admin
   * codes down to that one and the row's own id; with no code set it goes to
   * `adm1` keyed by the country code and the id.
   */
  lemma AdmdKey(f: seq<string>)
    requires |f| == FIELD_COUNT && f[FEATURE_CODE] == "ADMD"
    ensures var d := DeepestSetAdmin(f);
      DeriveKey(f) == Some((AdmLevel(d + 1), Join(AdminPath(f, d) + [f[ID]], '/')))
  {
    var d := DeepestSetAdmin(f);
    AdminPathJoins(f);
    JoinSnoc(AdminPath(f, d), f[ID], '/');
  }

  /**
   * PCL, PCLD, PCLF, PCLI, PCLIX and PCLS rows are countries keyed by the
   * country code alone; TERR rows are countries only for AS, EH and SJ; PCLH
   * and every other TERR row are discarded.
   */
  lemma CountryKeys(f: seq<string>)
    requires |f| == FIELD_COUNT
    ensures IsCountryCode(f[FEATURE_CODE]) ==> DeriveKey(f) == Some((Countries, f[COUNTRY_CODE]))
    ensures f[FEATURE_CODE] == "TERR" && IsParentTerritory(f[COUNTRY_CODE]) ==>
      DeriveKey(f) == Some((Countries, f[COUNTRY_CODE]))
    ensures f[FEATURE_CODE] == "TERR" && !IsParentTerritory(f[COUNTRY_CODE]) ==> DeriveKey(f) == None
    ensures f[FEATURE_CODE] == "PCLH" ==> DeriveKey(f) == None
  {
  }

  /**
   * The `toSearchTerms` switch: where the parent of a place of collection
   * `level` is looked up: `countries` by country code for `adm1`, `adm(n-1)`
   * by the country code and admin codes 1..n-1 for `admn`, and the `world`
   * vertex for countries.
   */
  function ParentTerms(level: Level, f: seq<string>): (r: (Level, string))
    requires |f| == FIELD_COUNT && level != World
    ensures Rank(r.0) + 1 == Rank(level)
    ensures level == Countries ==> r == (World, "world")
    ensures level != Countries ==> r.1 == Join(AdminPath(f, Rank(level) - 2), '/')
  {
    AdminPathJoins(f);
    var cc := f[COUNTRY_CODE];
    match level
    case Adm1 => (Countries, cc)
    case Adm2 => (Adm1, cc + "/" + f[10])
    case Adm3 => (Adm2, cc + "/" + f[10] + "/" + f[11])
    case Adm4 => (Adm3, cc + "/" + f[10] + "/" + f[11] + "/" + f[12])
    case Adm5 => (Adm4, cc + "/" + f[10] + "/" + f[11] + "/" + f[12] + "/" + f[13])
    case Countries => (World, "world")
  }

  /** No admin code and no id of the row contains '/'. */
  predicate PlainSegments(f: seq<string>)
    requires |f| == FIELD_COUNT
  {
    '/' !in f[ID] && forall i :: ADMIN1 <= i < ADMIN1 + 4 ==> '/' !in f[i]
  }

  /**
   * Below country level, the parent key is the place's own key with its last
   * '/'-segment removed, provided no code of the row contains '/'.
   */
  lemma ParentKeyStripsLastSegment(f: seq<string>)
    requires |f| == FIELD_COUNT && PlainSegments(f)
    requires DeriveKey(f).Some? && DeriveKey(f).value.0 != Countries
    ensures var (level, key) := DeriveKey(f).value;
      ParentTerms(level, f).1 == StripLastSegment(key)
  {
    var (level, key) := DeriveKey(f).value;
    var code := f[FEATURE_CODE];
    assert ADMIN1 <= ADMIN1 + 3 < ADMIN1 + 4;
    if code == "ADM5" {
      AdmKeys(f);
      StripLastSegmentOfJoin(AdminPath(f, 4) + [f[ID]]);
      assert (AdminPath(f, 4) + [f[ID]])[..5] == AdminPath(f, 4);
    } else if code == "ADMD" {
      AdmdKey(f);
      var d := DeepestSetAdmin(f);
      StripLastSegmentOfJoin(AdminPath(f, d) + [f[ID]]);
      assert (AdminPath(f, d) + [f[ID]])[..d + 1] == AdminPath(f, d);
    } else {
      AdmKeys(f);
      var n := if code == "ADM1" then 1 else if code == "ADM2" then 2 else if code == "ADM3" then 3 else 4;
      assert code == "ADM" + [Digit(n)];
      AdminPathSnoc(f, n - 1);
      assert '/' !in f[ADMIN1 + n - 1];
      StripLastSegmentOfJoin(AdminPath(f, n));
      assert AdminPath(f, n)[..n] == AdminPath(f, n - 1);
    }
  }

  /**
   * A line the loader keeps: exactly 19 tab-separated fields and a feature
   * code the key switch maps to a collection; its document carries the
   * derived key, the normalised names and the raw coordinate and population
   * text.
   */
  function Parse(line: string): (r: Option<Place>)
    ensures r.Some? <==> |Split(line, '\t')| == FIELD_COUNT && DeriveKey(Split(line, '\t')).Some?
    ensures r.Some? ==>
      && r.value.fields == Split(line, '\t')
      && DeriveKey(r.value.fields) == Some((r.value.level, r.value.vertex.geonameId))
      && r.value.level != World
      && r.value.vertex.name in r.value.vertex.alternateNames
  {
    var f := Split(line, '\t');
    if |f| != FIELD_COUNT then None
    else
      var (name, alternateNames) := NormaliseNames(f[NAME], f[ALTERNATE_NAMES]);
      match DeriveKey(f)
      case None => None
      case Some((level, key)) =>
        var location := Geolocation(f[LATITUDE], f[LONGITUDE]);
        Some(Place(level, Vertex(key, name, alternateNames, location, f[POPULATION]), f))
  }

  /**
   * The document a kept row yields: the derived key, the names as fixed up
   * by NormaliseNames, and the raw coordinate and population fields.
   */
  lemma ParseDocument(line: string)
    requires Parse(line).Some?
    ensures var f, v := Split(line, '\t'), Parse(line).value.vertex;
      && (v.name, v.alternateNames) == NormaliseNames(f[NAME], f[ALTERNATE_NAMES])
      && v.geolocation == Geolocation(f[LATITUDE], f[LONGITUDE])
      && v.population == f[POPULATION]
  {
  }
}
