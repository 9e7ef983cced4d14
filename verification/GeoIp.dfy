/** `GeoIpDatabases` (src/geoip.cpp): three database slots, the lookup that consults them,
    and which slot each field of its result may come from.
 */
module GeoIp {
  import opened Text
  import opened GeoIpTypes

  /** What libmaxminddb finds for an address: every field the program asks for. */
  datatype Record = Record(
    countryCode: Option<string>,
    countryName: Option<string>,
    continentCode: Option<string>,
    asn: Option<nat>,
    asOrg: Option<string>,
    cityName: Option<string>,
    postalCode: Option<string>,
    latitude: Option<string>,
    longitude: Option<string>,
    accuracyRadius: Option<nat>)

  datatype Outcome = Error | Missing | Entry(record: Record)

  /** What each opened handle answers for each address. */
  type Catalog = (nat, string) -> Outcome

  datatype Slot = Country | Asn | City

  // ----- the lookup, one database after the other -----

  datatype Progress = Progress(result: LookupResult, error: bool)

  const START := Progress(EMPTY, false)

  function WithCountry(result: LookupResult, record: Record): LookupResult {
    result.(found := true, countryCode := record.countryCode, countryName := record.countryName,
            continentCode := record.continentCode)
  }

  function WithAsn(result: LookupResult, record: Record): LookupResult {
    result.(found := true, asn := record.asn, asOrg := record.asOrg)
  }

  function WithCity(result: LookupResult, record: Record): LookupResult {
    result.(found := true, cityName := record.cityName, postalCode := record.postalCode,
            latitude := record.latitude, longitude := record.longitude,
            accuracyRadius := record.accuracyRadius)
  }

  function CountryStep(catalog: Catalog, country: Option<nat>, addr: string, p: Progress): Progress {
    if country.None? then p
    else
      match catalog(country.value, addr)
      case Error => p.(error := true)
      case Missing => p
      case Entry(record) => p.(result := WithCountry(p.result, record))
  }

  function AsnStep(catalog: Catalog, asn: Option<nat>, addr: string, p: Progress): Progress {
    if asn.None? || p.error then p
    else
      match catalog(asn.value, addr)
      case Error => p.(error := true)
      case Missing => p
      case Entry(record) => p.(result := WithAsn(p.result, record))
  }

  function CityStep(catalog: Catalog, city: Option<nat>, countryOpen: bool, addr: string, p: Progress): Progress {
    if city.None? || p.error then p
    else
      match catalog(city.value, addr)
      case Error => p.(error := true)
      case Missing => p
      case Entry(record) =>
        var result := WithCity(p.result, record);
        p.(result := if countryOpen then result else WithCountry(result, record))
  }

  /** A whole lookup on fixed slots. */
  function Lookup(catalog: Catalog, country: Option<nat>, asn: Option<nat>, city: Option<nat>, addr: string)
    : Progress
  {
    var p1 := CountryStep(catalog, country, addr, START);
    var p2 := AsnStep(catalog, asn, addr, p1);
    CityStep(catalog, city, country.Some?, addr, p2)
  }

  // ----- what a lookup means -----

  function OutcomeOf(catalog: Catalog, slot: Option<nat>, addr: string): Outcome {
    if slot.None? then Missing else catalog(slot.value, addr)
  }

  const NOTHING := Record(None, None, None, None, None, None, None, None, None, None)

  /** What a database contributes: its record, or nothing. */
  function Contribution(o: Outcome): Record {
    if o.Entry? then o.record else NOTHING
  }

  /** The lookup in closed form.  It fails iff any open database fails.  Otherwise it has
      found something iff some open database has an entry; ASN fields come from the ASN
      database and city fields from the city database alone; country and continent fields
      come from the country database if one is open and from the city database if not. */
  lemma LookupMeaning(catalog: Catalog, country: Option<nat>, asn: Option<nat>, city: Option<nat>, addr: string)
    ensures var c := OutcomeOf(catalog, country, addr);
            var a, t := OutcomeOf(catalog, asn, addr), OutcomeOf(catalog, city, addr);
            var p := Lookup(catalog, country, asn, city, addr);
            && (p.error <==> c.Error? || a.Error? || t.Error?)
            && (!p.error ==>
                  var authority := if country.Some? then c else t;
                  p.result == LookupResult(
                    c.Entry? || a.Entry? || t.Entry?,
                    Contribution(authority).countryCode,
                    Contribution(authority).countryName,
                    Contribution(authority).continentCode,
                    Contribution(a).asn,
                    Contribution(a).asOrg,
                    Contribution(t).cityName,
                    Contribution(t).postalCode,
                    Contribution(t).latitude,
                    Contribution(t).longitude,
                    Contribution(t).accuracyRadius))
  {
  }

  predicate SameCountryFields(a: LookupResult, b: LookupResult) {
    a.countryCode == b.countryCode && a.countryName == b.countryName && a.continentCode == b.continentCode
  }

  /** With a country database open, no city or ASN database can change what an error-free
      lookup says about country and continent. */
  lemma CountryIsAuthoritative(
      catalog: Catalog, country: Option<nat>, asn1: Option<nat>, city1: Option<nat>,
      asn2: Option<nat>, city2: Option<nat>, addr: string)
    requires country.Some?
    requires !Lookup(catalog, country, asn1, city1, addr).error
    requires !Lookup(catalog, country, asn2, city2, addr).error
    ensures SameCountryFields(Lookup(catalog, country, asn1, city1, addr).result,
                              Lookup(catalog, country, asn2, city2, addr).result)
  {
    LookupMeaning(catalog, country, asn1, city1, addr);
    LookupMeaning(catalog, country, asn2, city2, addr);
  }

  // ----- the class -----

  /** The three slots of a running process, used by one thread at a time; the module
      GeoIpReload is about many. */
  class GeoIpDatabases {
    var country: Option<nat>
    var asn: Option<nat>
    var city: Option<nat>
    /** Handles given to MMDB_close so far, in order. */
    var closed: seq<nat>

    constructor ()
      ensures country == None && asn == None && city == None && closed == []
    {
      country, asn, city, closed := None, None, None, [];
    }

    function Held(slot: Slot): Option<nat>
      reads this
    {
      match slot
      case Country => country
      case Asn => asn
      case City => city
    }

    /** `open_*` and `reload_*`: `tmp` is the freshly opened handle, or None if MMDB_open
        failed; then the previous handle stays. */
    method Open(slot: Slot, tmp: Option<nat>) returns (ok: bool)
      modifies this
      ensures ok == tmp.Some?
      ensures forall s :: Held(s) == if s == slot && ok then tmp else old(Held(s))
      ensures closed == old(closed) + if ok && old(Held(slot)).Some? then [old(Held(slot)).value] else []
    {
      if tmp.None? {
        return false;
      }
      match slot {
        case Country =>
          if country.Some? {
            closed := closed + [country.value];
          }
          country := tmp;
        case Asn =>
          if asn.Some? {
            closed := closed + [asn.value];
          }
          asn := tmp;
        case City =>
          if city.Some? {
            closed := closed + [city.value];
          }
          city := tmp;
      }
      return true;
    }

    /** `lookup`, field by field. */
    method LookupAddress(catalog: Catalog, addr: string) returns (result: LookupResult, error: bool)
      ensures Progress(result, error) == Lookup(catalog, country, asn, city, addr)
    {
      result, error := EMPTY, false;
      if country.Some? {
        var found := catalog(country.value, addr);
        if found.Error? {
          error := true;
        } else if found.Entry? {
          result := result.(found := true);
          result := result.(countryCode := found.record.countryCode);
          result := result.(countryName := found.record.countryName);
          result := result.(continentCode := found.record.continentCode);
        }
      }
      if asn.Some? && !error {
        var found := catalog(asn.value, addr);
        if found.Error? {
          error := true;
        } else if found.Entry? {
          result := result.(found := true);
          result := result.(asn := found.record.asn);
          result := result.(asOrg := found.record.asOrg);
        }
      }
      if city.Some? && !error {
        var found := catalog(city.value, addr);
        if found.Error? {
          error := true;
        } else if found.Entry? {
          result := result.(found := true);
          result := result.(cityName := found.record.cityName);
          result := result.(postalCode := found.record.postalCode);
          result := result.(latitude := found.record.latitude);
          result := result.(longitude := found.record.longitude);
          result := result.(accuracyRadius := found.record.accuracyRadius);
          if country.None? {
            result := result.(countryCode := found.record.countryCode);
            result := result.(countryName := found.record.countryName);
            result := result.(continentCode := found.record.continentCode);
          }
        }
      }
    }

    /** The destructor closes what is still held. */
    method Destroy()
      modifies this
      ensures closed == old(closed)
                        + (if old(country).Some? then [old(country).value] else [])
                        + (if old(asn).Some? then [old(asn).value] else [])
                        + (if old(city).Some? then [old(city).value] else [])
      ensures country == old(country) && asn == old(asn) && city == old(city)
    {
      if country.Some? {
        closed := closed + [country.value];
      }
      if asn.Some? {
        closed := closed + [asn.value];
      }
      if city.Some? {
        closed := closed + [city.value];
      }
    }
  }
}
