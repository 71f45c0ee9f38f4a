/**
 * The city database behind the location picker: a fixed table of cities with
 * coordinates, UTC offset and region, and the lookups over it (nearest city to
 * a position, text search, lookup by id with Mecca as the fallback, grouping
 * by region).
 */
module CityDatabase {
  import opened JsNumbers

  /** One entry of the table; `tz` is the UTC offset in hours. */
  datatype City = City(id: string, name: string, country: string, lat: real, lng: real, tz: real, region: string)

  /** An entry without its region, as listed under a region of the table. */
  datatype Place = Place(id: string, name: string, country: string, lat: real, lng: real, tz: real)

  /** A region's display name in English and Arabic. */
  datatype RegionName = RegionName(en: string, ar: string)

  /** The entries listed under `region`, each given that region. */
  function InRegion(region: string, places: seq<Place>): (r: seq<City>)
    ensures |r| == |places|
    ensures forall i :: 0 <= i < |places| ==>
      r[i] == City(places[i].id, places[i].name, places[i].country, places[i].lat, places[i].lng, places[i].tz, region)
  {
    seq(|places|, i requires 0 <= i < |places| =>
      City(places[i].id, places[i].name, places[i].country, places[i].lat, places[i].lng, places[i].tz, region))
  }

  // The entries of the table, region by region, in their original order.

  const MIDDLE_EAST: seq<Place> := [
    Place("mecca", "Mecca", "Saudi Arabia", 21.4225, 39.8262, 3.0),
    Place("medina", "Medina", "Saudi Arabia", 24.4686, 39.6142, 3.0),
    Place("riyadh", "Riyadh", "Saudi Arabia", 24.7136, 46.6753, 3.0),
    Place("jeddah", "Jeddah", "Saudi Arabia", 21.5433, 39.1728, 3.0),
    Place("dubai", "Dubai", "UAE", 25.2048, 55.2708, 4.0),
    Place("abudhabi", "Abu Dhabi", "UAE", 24.4539, 54.3773, 4.0),
    Place("doha", "Doha", "Qatar", 25.2854, 51.5310, 3.0),
    Place("kuwait", "Kuwait City", "Kuwait", 29.3759, 47.9774, 3.0),
    Place("muscat", "Muscat", "Oman", 23.5880, 58.3829, 4.0),
    Place("manama", "Manama", "Bahrain", 26.2285, 50.5860, 3.0),
    Place("jerusalem", "Jerusalem", "Palestine", 31.7683, 35.2137, 2.0),
    Place("amman", "Amman", "Jordan", 31.9454, 35.9284, 3.0),
    Place("beirut", "Beirut", "Lebanon", 33.8938, 35.5018, 2.0),
    Place("baghdad", "Baghdad", "Iraq", 33.3152, 44.3661, 3.0),
    Place("tehran", "Tehran", "Iran", 35.6892, 51.3890, 3.5),
    Place("sanaa", "Sana\'a", "Yemen", 15.3694, 44.1910, 3.0)
  ]

  const NORTH_AFRICA: seq<Place> := [
    Place("cairo", "Cairo", "Egypt", 30.0444, 31.2357, 2.0),
    Place("alexandria", "Alexandria", "Egypt", 31.2001, 29.9187, 2.0),
    Place("tripoli", "Tripoli", "Libya", 32.8872, 13.1913, 2.0),
    Place("tunis", "Tunis", "Tunisia", 36.8065, 10.1815, 1.0),
    Place("algiers", "Algiers", "Algeria", 36.7538, 3.0588, 1.0),
    Place("casablanca", "Casablanca", "Morocco", 33.5731, -7.5898, 1.0),
    Place("khartoum", "Khartoum", "Sudan", 15.5007, 32.5599, 2.0),
    Place("mogadishu", "Mogadishu", "Somalia", 2.0469, 45.3182, 3.0),
    Place("lagos", "Lagos", "Nigeria", 6.5244, 3.3792, 1.0)
  ]

  const SOUTH_CENTRAL_ASIA: seq<Place> := [
    Place("karachi", "Karachi", "Pakistan", 24.8607, 67.0011, 5.0),
    Place("lahore", "Lahore", "Pakistan", 31.5204, 74.3587, 5.0),
    Place("islamabad", "Islamabad", "Pakistan", 33.6844, 73.0479, 5.0),
    Place("peshawar", "Peshawar", "Pakistan", 34.0151, 71.5249, 5.0),
    Place("dhaka", "Dhaka", "Bangladesh", 23.8103, 90.4125, 6.0),
    Place("chittagong", "Chittagong", "Bangladesh", 22.3569, 91.7832, 6.0),
    Place("delhi", "New Delhi", "India", 28.6139, 77.2090, 5.5),
    Place("mumbai", "Mumbai", "India", 19.0760, 72.8777, 5.5),
    Place("bengaluru", "Bengaluru", "India", 12.9716, 77.5946, 5.5),
    Place("hyderabad", "Hyderabad", "India", 17.3850, 78.4867, 5.5),
    Place("chennai", "Chennai", "India", 13.0827, 80.2707, 5.5),
    Place("kolkata", "Kolkata", "India", 22.5726, 88.3639, 5.5),
    Place("ahmedabad", "Ahmedabad", "India", 23.0225, 72.5714, 5.5),
    Place("pune", "Pune", "India", 18.5204, 73.8567, 5.5),
    Place("jaipur", "Jaipur", "India", 26.9124, 75.7873, 5.5),
    Place("lucknow", "Lucknow", "India", 26.8467, 80.9462, 5.5),
    Place("indore", "Indore", "India", 22.7196, 75.8577, 5.5),
    Place("bhopal", "Bhopal", "India", 23.2599, 77.4126, 5.5),
    Place("srinagar", "Srinagar", "India", 34.0837, 74.7973, 5.5),
    Place("patna", "Patna", "India", 25.6093, 85.1376, 5.5),
    Place("nagpur", "Nagpur", "India", 21.1458, 79.0882, 5.5),
    Place("surat", "Surat", "India", 21.1702, 72.8311, 5.5),
    Place("coimbatore", "Coimbatore", "India", 11.0168, 76.9558, 5.5),
    Place("trivandrum", "Thiruvananthapuram", "India", 8.5241, 76.9366, 5.5),
    Place("kochi", "Kochi", "India", 9.9312, 76.2673, 5.5),
    Place("kabul", "Kabul", "Afghanistan", 34.5553, 69.2075, 4.5),
    Place("colombo", "Colombo", "Sri Lanka", 6.9271, 79.8612, 5.5)
  ]

  const SOUTHEAST_ASIA: seq<Place> := [
    Place("jakarta", "Jakarta", "Indonesia", -6.2088, 106.8456, 7.0),
    Place("kualalumpur", "Kuala Lumpur", "Malaysia", 3.1390, 101.6869, 8.0),
    Place("singapore", "Singapore", "Singapore", 1.3521, 103.8198, 8.0),
    Place("brunei", "Bandar Seri B.", "Brunei", 4.9031, 114.9398, 8.0)
  ]

  const TURKEY_CENTRAL_ASIA: seq<Place> := [
    Place("istanbul", "Istanbul", "Turkey", 41.0082, 28.9784, 3.0),
    Place("ankara", "Ankara", "Turkey", 39.9334, 32.8597, 3.0),
    Place("tashkent", "Tashkent", "Uzbekistan", 41.2995, 69.2401, 5.0),
    Place("baku", "Baku", "Azerbaijan", 40.4093, 49.8671, 4.0)
  ]

  const EUROPE_AMERICAS: seq<Place> := [
    Place("london", "London", "UK", 51.5074, -0.1278, 0.0),
    Place("paris", "Paris", "France", 48.8566, 2.3522, 1.0),
    Place("berlin", "Berlin", "Germany", 52.5200, 13.4050, 1.0),
    Place("newyork", "New York", "USA", 40.7128, -74.0060, -5.0),
    Place("toronto", "Toronto", "Canada", 43.6532, -79.3832, -5.0),
    Place("chicago", "Chicago", "USA", 41.8781, -87.6298, -6.0),
    Place("losangeles", "Los Angeles", "USA", 34.0522, -118.2437, -8.0),
    Place("sydney", "Sydney", "Australia", -33.8688, 151.2093, 11.0)
  ]

  /** All cities, Mecca first. */
  const CITIES: seq<City> :=
    InRegion("middle-east", MIDDLE_EAST) + InRegion("africa", NORTH_AFRICA) +
    InRegion("south-asia", SOUTH_CENTRAL_ASIA) + InRegion("southeast-asia", SOUTHEAST_ASIA) +
    InRegion("turkey-central", TURKEY_CENTRAL_ASIA) + InRegion("europe-americas", EUROPE_AMERICAS)

  const REGIONS: map<string, RegionName> := map[
    "middle-east" := RegionName("Middle East", "الشرق الأوسط"),
    "africa" := RegionName("Africa", "أفريقيا"),
    "south-asia" := RegionName("South Asia", "جنوب آسيا"),
    "southeast-asia" := RegionName("Southeast Asia", "جنوب شرق آسيا"),
    "turkey-central" := RegionName("Turkey & Central", "تركيا ووسط آسيا"),
    "europe-americas" := RegionName("Europe & Americas", "أوروبا والأمريكتين")
  ]

  // ---------------------------------------------------------------------
  // Table invariants
  // ---------------------------------------------------------------------

  /** Every city of `block` lies in `region`. */
  predicate AllIn(block: seq<City>, region: string)
  {
    forall c :: c in block ==> c.region == region
  }

  /** A block built by `InRegion` lies in its region. */
  lemma InRegionIsAllIn(region: string, places: seq<Place>)
    ensures AllIn(InRegion(region, places), region)
  {
    var block := InRegion(region, places);
    forall c | c in block
      ensures c.region == region
    {
      var i :| 0 <= i < |block| && block[i] == c;
    }
  }

  /** Every city's region is one of the named regions. */
  lemma RegionsAreKnown()
    ensures forall c :: c in CITIES ==> c.region in REGIONS
  {
    InRegionIsAllIn("middle-east", MIDDLE_EAST);
    InRegionIsAllIn("africa", NORTH_AFRICA);
    InRegionIsAllIn("south-asia", SOUTH_CENTRAL_ASIA);
    InRegionIsAllIn("southeast-asia", SOUTHEAST_ASIA);
    InRegionIsAllIn("turkey-central", TURKEY_CENTRAL_ASIA);
    InRegionIsAllIn("europe-americas", EUROPE_AMERICAS);
  }

  /** No two entries of `places` share an id. */
  predicate DistinctIds(places: seq<Place>)
  {
    forall i, j :: 0 <= i < j < |places| ==> places[i].id != places[j].id
  }

  /** No entry of `a` shares an id with an entry of `b`. */
  predicate DisjointIds(a: seq<Place>, b: seq<Place>)
  {
    forall i, j :: 0 <= i < |a| && 0 <= j < |b| ==> a[i].id != b[j].id
  }

  // Each region block has distinct ids, and no two blocks share one.

  lemma MiddleEastIdsDistinct()
    ensures DistinctIds(MIDDLE_EAST)
  {
  }

  lemma NorthAfricaIdsDistinct()
    ensures DistinctIds(NORTH_AFRICA)
  {
  }

  // The largest block is checked in three parts: its first half, its second
  // half, and one half against the other.
  lemma SouthCentralAsiaIdsDistinctLow()
    ensures forall i, j :: 0 <= i < j < 14 ==> SOUTH_CENTRAL_ASIA[i].id != SOUTH_CENTRAL_ASIA[j].id
  {
  }

  lemma SouthCentralAsiaIdsDistinctHigh()
    ensures forall i, j :: 14 <= i < j < |SOUTH_CENTRAL_ASIA| ==> SOUTH_CENTRAL_ASIA[i].id != SOUTH_CENTRAL_ASIA[j].id
  {
  }

  lemma SouthCentralAsiaIdsDistinctAcross()
    ensures forall i, j :: 0 <= i < 14 <= j < |SOUTH_CENTRAL_ASIA| ==> SOUTH_CENTRAL_ASIA[i].id != SOUTH_CENTRAL_ASIA[j].id
  {
  }

  lemma SouthCentralAsiaIdsDistinct()
    ensures DistinctIds(SOUTH_CENTRAL_ASIA)
  {
    SouthCentralAsiaIdsDistinctLow();
    SouthCentralAsiaIdsDistinctHigh();
    SouthCentralAsiaIdsDistinctAcross();
  }

  lemma SoutheastAsiaIdsDistinct()
    ensures DistinctIds(SOUTHEAST_ASIA)
  {
  }

  lemma TurkeyCentralAsiaIdsDistinct()
    ensures DistinctIds(TURKEY_CENTRAL_ASIA)
  {
  }

  lemma EuropeAmericasIdsDistinct()
    ensures DistinctIds(EUROPE_AMERICAS)
  {
  }

  lemma MiddleEastNorthAfricaIdsDisjoint()
    ensures DisjointIds(MIDDLE_EAST, NORTH_AFRICA)
  {
  }

  lemma MiddleEastSouthCentralAsiaIdsDisjointLow()
    ensures forall i, j :: 0 <= i < |MIDDLE_EAST| && 0 <= j < 14 ==> MIDDLE_EAST[i].id != SOUTH_CENTRAL_ASIA[j].id
  {
  }

  lemma MiddleEastSouthCentralAsiaIdsDisjointHigh()
    ensures forall i, j :: 0 <= i < |MIDDLE_EAST| && 14 <= j < |SOUTH_CENTRAL_ASIA| ==> MIDDLE_EAST[i].id != SOUTH_CENTRAL_ASIA[j].id
  {
  }

  lemma MiddleEastSouthCentralAsiaIdsDisjoint()
    ensures DisjointIds(MIDDLE_EAST, SOUTH_CENTRAL_ASIA)
  {
    MiddleEastSouthCentralAsiaIdsDisjointLow();
    MiddleEastSouthCentralAsiaIdsDisjointHigh();
  }

  lemma MiddleEastSoutheastAsiaIdsDisjoint()
    ensures DisjointIds(MIDDLE_EAST, SOUTHEAST_ASIA)
  {
  }

  lemma MiddleEastTurkeyCentralAsiaIdsDisjoint()
    ensures DisjointIds(MIDDLE_EAST, TURKEY_CENTRAL_ASIA)
  {
  }

  lemma MiddleEastEuropeAmericasIdsDisjoint()
    ensures DisjointIds(MIDDLE_EAST, EUROPE_AMERICAS)
  {
  }

  lemma NorthAfricaSouthCentralAsiaIdsDisjointLow()
    ensures forall i, j :: 0 <= i < |NORTH_AFRICA| && 0 <= j < 14 ==> NORTH_AFRICA[i].id != SOUTH_CENTRAL_ASIA[j].id
  {
  }

  lemma NorthAfricaSouthCentralAsiaIdsDisjointHigh()
    ensures forall i, j :: 0 <= i < |NORTH_AFRICA| && 14 <= j < |SOUTH_CENTRAL_ASIA| ==> NORTH_AFRICA[i].id != SOUTH_CENTRAL_ASIA[j].id
  {
  }

  lemma NorthAfricaSouthCentralAsiaIdsDisjoint()
    ensures DisjointIds(NORTH_AFRICA, SOUTH_CENTRAL_ASIA)
  {
    NorthAfricaSouthCentralAsiaIdsDisjointLow();
    NorthAfricaSouthCentralAsiaIdsDisjointHigh();
  }

  lemma NorthAfricaSoutheastAsiaIdsDisjoint()
    ensures DisjointIds(NORTH_AFRICA, SOUTHEAST_ASIA)
  {
  }

  lemma NorthAfricaTurkeyCentralAsiaIdsDisjoint()
    ensures DisjointIds(NORTH_AFRICA, TURKEY_CENTRAL_ASIA)
  {
  }

  lemma NorthAfricaEuropeAmericasIdsDisjoint()
    ensures DisjointIds(NORTH_AFRICA, EUROPE_AMERICAS)
  {
  }

  lemma SouthCentralAsiaSoutheastAsiaIdsDisjoint()
    ensures DisjointIds(SOUTH_CENTRAL_ASIA, SOUTHEAST_ASIA)
  {
  }

  lemma SouthCentralAsiaTurkeyCentralAsiaIdsDisjoint()
    ensures DisjointIds(SOUTH_CENTRAL_ASIA, TURKEY_CENTRAL_ASIA)
  {
  }

  lemma SouthCentralAsiaEuropeAmericasIdsDisjoint()
    ensures DisjointIds(SOUTH_CENTRAL_ASIA, EUROPE_AMERICAS)
  {
  }

  lemma SoutheastAsiaTurkeyCentralAsiaIdsDisjoint()
    ensures DisjointIds(SOUTHEAST_ASIA, TURKEY_CENTRAL_ASIA)
  {
  }

  lemma SoutheastAsiaEuropeAmericasIdsDisjoint()
    ensures DisjointIds(SOUTHEAST_ASIA, EUROPE_AMERICAS)
  {
  }

  lemma TurkeyCentralAsiaEuropeAmericasIdsDisjoint()
    ensures DisjointIds(TURKEY_CENTRAL_ASIA, EUROPE_AMERICAS)
  {
  }

  /** Joining two blocks with distinct ids and no id in common keeps the ids distinct. */
  lemma DistinctIdsAppend(a: seq<Place>, b: seq<Place>)
    requires DistinctIds(a) && DistinctIds(b) && DisjointIds(a, b)
    ensures DistinctIds(a + b)
  {
    forall i, j | 0 <= i < j < |a + b|
      ensures (a + b)[i].id != (a + b)[j].id
    {
      if j < |a| {
        assert (a + b)[i] == a[i] && (a + b)[j] == a[j];
      } else if i < |a| {
        assert (a + b)[i] == a[i] && (a + b)[j] == b[j - |a|];
      } else {
        assert (a + b)[i] == b[i - |a|] && (a + b)[j] == b[j - |a|];
      }
    }
  }

  /** A block sharing no id with either of two blocks shares none with both together. */
  lemma DisjointIdsAppend(a: seq<Place>, b: seq<Place>, c: seq<Place>)
    requires DisjointIds(a, c) && DisjointIds(b, c)
    ensures DisjointIds(a + b, c)
  {
    forall i, j | 0 <= i < |a + b| && 0 <= j < |c|
      ensures (a + b)[i].id != c[j].id
    {
      if i < |a| {
        assert (a + b)[i] == a[i];
      } else {
        assert (a + b)[i] == b[i - |a|];
      }
    }
  }

  /** `InRegion` keeps the ids of its entries, also across joined blocks. */
  lemma SameIdsAppend(cs: seq<City>, ps: seq<Place>, region: string, qs: seq<Place>)
    requires |cs| == |ps| && forall i :: 0 <= i < |ps| ==> cs[i].id == ps[i].id
    ensures var ds := cs + InRegion(region, qs);
      |ds| == |ps + qs| && forall i :: 0 <= i < |ps + qs| ==> ds[i].id == (ps + qs)[i].id
  {
    var ds := cs + InRegion(region, qs);
    forall i | 0 <= i < |ps + qs|
      ensures ds[i].id == (ps + qs)[i].id
    {
      if i < |ps| {
        assert ds[i] == cs[i] && (ps + qs)[i] == ps[i];
      } else {
        assert ds[i] == InRegion(region, qs)[i - |ps|] && (ps + qs)[i] == qs[i - |ps|];
      }
    }
  }

  /** No two cities share an id. */
  lemma IdsAreDistinct()
    ensures forall i, j :: 0 <= i < j < |CITIES| ==> CITIES[i].id != CITIES[j].id
  {
    var me := InRegion("middle-east", MIDDLE_EAST);
    var cities := me;
    var places := MIDDLE_EAST;
    MiddleEastIdsDistinct();
    NorthAfricaIdsDistinct();
    MiddleEastNorthAfricaIdsDisjoint();
    DistinctIdsAppend(places, NORTH_AFRICA);
    SameIdsAppend(cities, places, "africa", NORTH_AFRICA);
    cities, places := cities + InRegion("africa", NORTH_AFRICA), places + NORTH_AFRICA;
    SouthCentralAsiaIdsDistinct();
    MiddleEastSouthCentralAsiaIdsDisjoint();
    NorthAfricaSouthCentralAsiaIdsDisjoint();
    DisjointIdsAppend(MIDDLE_EAST, NORTH_AFRICA, SOUTH_CENTRAL_ASIA);
    DistinctIdsAppend(places, SOUTH_CENTRAL_ASIA);
    SameIdsAppend(cities, places, "south-asia", SOUTH_CENTRAL_ASIA);
    cities, places := cities + InRegion("south-asia", SOUTH_CENTRAL_ASIA), places + SOUTH_CENTRAL_ASIA;
    SoutheastAsiaIdsDistinct();
    MiddleEastSoutheastAsiaIdsDisjoint();
    NorthAfricaSoutheastAsiaIdsDisjoint();
    SouthCentralAsiaSoutheastAsiaIdsDisjoint();
    DisjointIdsAppend(MIDDLE_EAST, NORTH_AFRICA, SOUTHEAST_ASIA);
    DisjointIdsAppend(MIDDLE_EAST + NORTH_AFRICA, SOUTH_CENTRAL_ASIA, SOUTHEAST_ASIA);
    DistinctIdsAppend(places, SOUTHEAST_ASIA);
    SameIdsAppend(cities, places, "southeast-asia", SOUTHEAST_ASIA);
    cities, places := cities + InRegion("southeast-asia", SOUTHEAST_ASIA), places + SOUTHEAST_ASIA;
    TurkeyCentralAsiaIdsDistinct();
    MiddleEastTurkeyCentralAsiaIdsDisjoint();
    NorthAfricaTurkeyCentralAsiaIdsDisjoint();
    SouthCentralAsiaTurkeyCentralAsiaIdsDisjoint();
    SoutheastAsiaTurkeyCentralAsiaIdsDisjoint();
    DisjointIdsAppend(MIDDLE_EAST, NORTH_AFRICA, TURKEY_CENTRAL_ASIA);
    DisjointIdsAppend(MIDDLE_EAST + NORTH_AFRICA, SOUTH_CENTRAL_ASIA, TURKEY_CENTRAL_ASIA);
    DisjointIdsAppend(MIDDLE_EAST + NORTH_AFRICA + SOUTH_CENTRAL_ASIA, SOUTHEAST_ASIA, TURKEY_CENTRAL_ASIA);
    DistinctIdsAppend(places, TURKEY_CENTRAL_ASIA);
    SameIdsAppend(cities, places, "turkey-central", TURKEY_CENTRAL_ASIA);
    cities, places := cities + InRegion("turkey-central", TURKEY_CENTRAL_ASIA), places + TURKEY_CENTRAL_ASIA;
    EuropeAmericasIdsDistinct();
    MiddleEastEuropeAmericasIdsDisjoint();
    NorthAfricaEuropeAmericasIdsDisjoint();
    SouthCentralAsiaEuropeAmericasIdsDisjoint();
    SoutheastAsiaEuropeAmericasIdsDisjoint();
    TurkeyCentralAsiaEuropeAmericasIdsDisjoint();
    DisjointIdsAppend(MIDDLE_EAST, NORTH_AFRICA, EUROPE_AMERICAS);
    DisjointIdsAppend(MIDDLE_EAST + NORTH_AFRICA, SOUTH_CENTRAL_ASIA, EUROPE_AMERICAS);
    DisjointIdsAppend(MIDDLE_EAST + NORTH_AFRICA + SOUTH_CENTRAL_ASIA, SOUTHEAST_ASIA, EUROPE_AMERICAS);
    DisjointIdsAppend(MIDDLE_EAST + NORTH_AFRICA + SOUTH_CENTRAL_ASIA + SOUTHEAST_ASIA, TURKEY_CENTRAL_ASIA, EUROPE_AMERICAS);
    DistinctIdsAppend(places, EUROPE_AMERICAS);
    SameIdsAppend(cities, places, "europe-americas", EUROPE_AMERICAS);
    cities, places := cities + InRegion("europe-americas", EUROPE_AMERICAS), places + EUROPE_AMERICAS;
    assert cities == CITIES;
    forall i, j | 0 <= i < j < |CITIES|
      ensures CITIES[i].id != CITIES[j].id
    {
      assert places[i].id != places[j].id;
    }
  }

  /** The table starts with Mecca, the fallback of the lookup by id. */
  lemma MeccaComesFirst()
    ensures |CITIES| == 68 && CITIES[0].id == "mecca"
  {
  }

  // ---------------------------------------------------------------------
  // findNearest
  // ---------------------------------------------------------------------

  /** Squared distance in degrees between a city and a position. */
  function SquaredDistance(c: City, lat: real, lng: real): (r: real)
    ensures r >= 0.0
  {
    var dLat := c.lat - lat;
    var dLng := c.lng - lng;
    SquareIsNonNegative(dLat);
    SquareIsNonNegative(dLng);
    dLat * dLat + dLng * dLng
  }

  lemma SquareIsNonNegative(x: real)
    ensures x * x >= 0.0
  {
    if x < 0.0 {
      RealMulPositive(-x, -x);
      assert (-x) * (-x) == x * x;
    } else if x > 0.0 {
      RealMulPositive(x, x);
    }
  }

  /** `k` is the first position of a city closest to (`lat`, `lng`). */
  predicate IsFirstNearest(cities: seq<City>, k: int, lat: real, lng: real)
  {
    0 <= k < |cities| &&
    (forall j :: 0 <= j < |cities| ==> SquaredDistance(cities[k], lat, lng) <= SquaredDistance(cities[j], lat, lng)) &&
    (forall j :: 0 <= j < k ==> SquaredDistance(cities[j], lat, lng) > SquaredDistance(cities[k], lat, lng))
  }

  /**
   * The scan of `findNearest` over a table: only a strictly smaller distance replaces
   * the current choice, so on a tie the earlier city wins.
   */
  method NearestIn(cities: seq<City>, lat: real, lng: real) returns (nearest: City)
    requires |cities| > 0
    ensures exists k :: IsFirstNearest(cities, k, lat, lng) && nearest == cities[k]
  {
    var minDist: Option<real> := None;  // Infinity
    nearest := cities[0];
    ghost var best := 0;
    var i := 0;
    while i < |cities|
      invariant 0 <= i <= |cities|
      invariant 0 <= best < |cities| && nearest == cities[best]
      invariant i == 0 <==> minDist.None?
      invariant i > 0 ==> best < i && minDist == Some(SquaredDistance(cities[best], lat, lng))
      invariant forall j :: 0 <= j < i ==> SquaredDistance(cities[best], lat, lng) <= SquaredDistance(cities[j], lat, lng)
      invariant forall j :: 0 <= j < best ==> SquaredDistance(cities[j], lat, lng) > SquaredDistance(cities[best], lat, lng)
    {
      var dist := SquaredDistance(cities[i], lat, lng);
      if minDist.None? || dist < minDist.value {
        minDist := Some(dist);
        nearest := cities[i];
        best := i;
      }
      i := i + 1;
    }
    assert IsFirstNearest(cities, best, lat, lng);
  }

  /** `findNearest`: the first city of the table closest to the position. */
  method FindNearest(lat: real, lng: real) returns (nearest: City)
    ensures exists k :: IsFirstNearest(CITIES, k, lat, lng) && nearest == CITIES[k]
  {
    nearest := NearestIn(CITIES, lat, lng);
  }

  // ---------------------------------------------------------------------
  // search
  // ---------------------------------------------------------------------

  /** Characters `String.prototype.trim` removes (the Unicode space separators other than U+00A0 are not listed). */
  predicate IsWhitespace(c: char)
  {
    c == ' ' || c == '\t' || c == '\n' || c == '\r' || c == '\U{000B}' || c == '\U{000C}'
    || c == '\U{00A0}' || c == '\U{FEFF}' || c == '\U{2028}' || c == '\U{2029}'
  }

  /** The first position at or after `i` that is not whitespace (or the end). */
  function SkipForward(s: string, i: nat): (j: nat)
    requires i <= |s|
    ensures i <= j <= |s| && (j == |s| || !IsWhitespace(s[j]))
    ensures forall k :: i <= k < j ==> IsWhitespace(s[k])
    decreases |s| - i
  {
    if i < |s| && IsWhitespace(s[i]) then SkipForward(s, i + 1) else i
  }

  /** The end, at or before `j` and not before `i`, of `s[i..j]` without trailing whitespace. */
  function SkipBackward(s: string, i: nat, j: nat): (e: nat)
    requires i <= j <= |s|
    ensures i <= e <= j && (e == i || !IsWhitespace(s[e - 1]))
    ensures forall k :: e <= k < j ==> IsWhitespace(s[k])
    decreases j - i
  {
    if i < j && IsWhitespace(s[j - 1]) then SkipBackward(s, i, j - 1) else j
  }

  /** `String.prototype.trim`: the part of `s` between its leading and trailing whitespace. */
  function Trim(s: string): (r: string)
    ensures r == [] || (!IsWhitespace(r[0]) && !IsWhitespace(r[|r| - 1]))
    ensures exists i, j :: (0 <= i <= j <= |s| && r == s[i..j] &&
      (forall k :: 0 <= k < i ==> IsWhitespace(s[k])) && (forall k :: j <= k < |s| ==> IsWhitespace(s[k])))
  {
    var i := SkipForward(s, 0);
    var j := SkipBackward(s, i, |s|);
    s[i..j]
  }

  /** Trimming twice trims nothing more. */
  lemma TrimIsIdempotent(s: string)
    ensures Trim(Trim(s)) == Trim(s)
  {
    var r := Trim(s);
    if r != [] {
      assert SkipForward(r, 0) == 0;
      assert SkipBackward(r, 0, |r|) == |r|;
      assert r[0..|r|] == r;
    }
  }

  /** ASCII lower-casing of one character. */
  function LowerChar(c: char): (r: char)
    ensures !('A' <= r <= 'Z')
    ensures !('A' <= c <= 'Z') ==> r == c
    ensures 'A' <= c <= 'Z' ==> r as int == c as int + 32
  {
    if 'A' <= c <= 'Z' then (c as int + 32) as char else c
  }

  /** `String.prototype.toLowerCase` on ASCII letters. */
  function Lower(s: string): (r: string)
    ensures |r| == |s| && forall i :: 0 <= i < |s| ==> r[i] == LowerChar(s[i])
  {
    seq(|s|, i requires 0 <= i < |s| => LowerChar(s[i]))
  }

  /** Lower-casing a lower-case string changes nothing. */
  lemma LowerIsIdempotent(s: string)
    ensures Lower(Lower(s)) == Lower(s)
  {
    var r := Lower(s);
    assert forall i :: 0 <= i < |r| ==> LowerChar(r[i]) == r[i];
  }

  /** `q` occurs at the start of `s`. */
  predicate StartsWith(s: string, q: string)
  {
    |q| <= |s| && s[..|q|] == q
  }

  /** `String.prototype.includes`. */
  predicate Contains(s: string, q: string)
    decreases |s|
  {
    StartsWith(s, q) || (|s| > 0 && Contains(s[1..], q))
  }

  /** `q` occurs in `s` starting at position `i`. */
  predicate OccursAt(s: string, q: string, i: int)
  {
    0 <= i <= |s| - |q| && s[i..i + |q|] == q
  }

  /** An occurrence at any position makes `Contains` hold. */
  lemma {:induction false} OccurrenceIsContained(s: string, q: string, i: int)
    requires OccursAt(s, q, i)
    ensures Contains(s, q)
    decreases i
  {
    if i > 0 {
      SliceOfTail(s, i, |q|);
      OccurrenceIsContained(s[1..], q, i - 1);
    } else {
      assert s[..|q|] == s[0..0 + |q|];
    }
  }

  /** `Contains` holds exactly when `q` occurs at some position of `s`. */
  lemma {:induction false} ContainsIffOccurs(s: string, q: string)
    ensures Contains(s, q) <==> exists i :: OccursAt(s, q, i)
    decreases |s|
  {
    forall i | OccursAt(s, q, i)
      ensures Contains(s, q)
    {
      OccurrenceIsContained(s, q, i);
    }
    if StartsWith(s, q) {
      assert OccursAt(s, q, 0);
    } else if |s| > 0 {
      ContainsIffOccurs(s[1..], q);
      if Contains(s[1..], q) {
        var i :| OccursAt(s[1..], q, i);
        SliceOfTail(s, i + 1, |q|);
        assert OccursAt(s, q, i + 1);
      }
    }
  }

  lemma SliceOfTail(s: string, i: int, n: int)
    requires 1 <= i && 0 <= n && i + n <= |s|
    ensures s[1..][i - 1..i - 1 + n] == s[i..i + n]
  {
  }

  /** A city matches a (lower-cased, trimmed) query through its name, its country or its id. */
  predicate Matches(c: City, q: string)
  {
    Contains(Lower(c.name), q) || Contains(Lower(c.country), q) || Contains(c.id, q)
  }

  /** `a` is `b` with some elements left out, the rest in their order. */
  predicate IsSubsequence(a: seq<City>, b: seq<City>)
    decreases |b|
  {
    a == [] || (b != [] && (if a[0] == b[0] then IsSubsequence(a[1..], b[1..]) else IsSubsequence(a, b[1..])))
  }

  /** The cities of `cities` that match `q`, in table order. */
  function MatchingCities(cities: seq<City>, q: string): (r: seq<City>)
    ensures forall c :: c in r <==> c in cities && Matches(c, q)
    ensures IsSubsequence(r, cities)
    ensures forall c {:trigger multiset(r)[c]} :: multiset(r)[c] == if Matches(c, q) then multiset(cities)[c] else 0
  {
    if cities == [] then []
    else
      assert cities == [cities[0]] + cities[1..];
      if Matches(cities[0], q) then [cities[0]] + MatchingCities(cities[1..], q)
      else MatchingCities(cities[1..], q)
  }

  /** `search`: the whole table for a blank query, otherwise the matching cities in table order. */
  function Search(query: string): (r: seq<City>)
    ensures Trim(Lower(query)) == [] ==> r == CITIES
    ensures Trim(Lower(query)) != [] ==>
      IsSubsequence(r, CITIES) && forall c :: c in r <==> c in CITIES && Matches(c, Trim(Lower(query)))
  {
    var q := Trim(Lower(query));
    if q == [] then CITIES else MatchingCities(CITIES, q)
  }

  /** A string of lower-case letters is its own lower-cased, trimmed query. */
  lemma PlainTextIsItsOwnQuery(text: string)
    requires forall k :: 0 <= k < |text| ==> 'a' <= text[k] <= 'z'
    ensures Trim(Lower(text)) == text
  {
    assert Lower(text) == text;
    if text != [] {
      assert !IsWhitespace(text[0]) && !IsWhitespace(text[|text| - 1]);
      assert SkipForward(text, 0) == 0;
      assert SkipBackward(text, 0, |text|) == |text|;
      assert text[0..|text|] == text;
    }
  }

  /** Every city whose id is the query is among the matches. */
  lemma MatchesIncludeId(cities: seq<City>, c: City)
    requires c in cities
    ensures c in MatchingCities(cities, c.id)
  {
    assert StartsWith(c.id, c.id);
  }

  /** A city is found by its own id when the id is written in lower-case letters. */
  lemma SearchFindsCityById(c: City)
    requires c in CITIES
    requires forall k :: 0 <= k < |c.id| ==> 'a' <= c.id[k] <= 'z'
    ensures c in Search(c.id)
  {
    PlainTextIsItsOwnQuery(c.id);
    if c.id != [] {
      MatchesIncludeId(CITIES, c);
    }
  }

  // ---------------------------------------------------------------------
  // getById
  // ---------------------------------------------------------------------

  /** `Array.prototype.find` by id. */
  function FindById(cities: seq<City>, id: string): (r: Option<City>)
    ensures r.None? <==> forall c :: c in cities ==> c.id != id
    ensures r.Some? ==> exists k :: (0 <= k < |cities| && cities[k] == r.value && r.value.id == id &&
      forall j :: 0 <= j < k ==> cities[j].id != id)
  {
    if cities == [] then None
    else if cities[0].id == id then Some(cities[0])
    else
      var r := FindById(cities[1..], id);
      if r.Some? then
        var k :| 0 <= k < |cities[1..]| && cities[1..][k] == r.value && r.value.id == id &&
          forall j :: 0 <= j < k ==> cities[1..][j].id != id;
        assert cities[k + 1] == r.value;
        r
      else r
  }

  /** `getById`: the first city with that id, or Mecca when there is none. */
  function GetById(id: string): (r: City)
    ensures (forall c :: c in CITIES ==> c.id != id) ==> r == CITIES[0]
    ensures (exists c :: c in CITIES && c.id == id) ==>
      exists k :: (0 <= k < |CITIES| && CITIES[k] == r && r.id == id && forall j :: 0 <= j < k ==> CITIES[j].id != id)
  {
    var found := FindById(CITIES, id);
    if found.Some? then found.value else CITIES[0]
  }

  /** Since ids are distinct, the lookup by a city's id gives that city. */
  lemma GetByIdFindsTheCity(c: City)
    requires c in CITIES
    ensures GetById(c.id) == c
  {
    IdsAreDistinct();
    var m :| 0 <= m < |CITIES| && CITIES[m] == c;
    var k :| 0 <= k < |CITIES| && CITIES[k] == GetById(c.id) && GetById(c.id).id == c.id &&
      forall j :: 0 <= j < k ==> CITIES[j].id != c.id;
    assert k == m;
  }

  // ---------------------------------------------------------------------
  // getGroupedByRegion
  // ---------------------------------------------------------------------

  /** The cities of `cities` in `region`, in table order. */
  function CitiesIn(cities: seq<City>, region: string): (r: seq<City>)
    ensures forall c :: c in r <==> c in cities && c.region == region
    ensures forall c {:trigger multiset(r)[c]} :: multiset(r)[c] == if c.region == region then multiset(cities)[c] else 0
  {
    if cities == [] then []
    else
      assert cities == [cities[0]] + cities[1..];
      if cities[0].region == region then [cities[0]] + CitiesIn(cities[1..], region)
      else CitiesIn(cities[1..], region)
  }

  /** A region's group keeps the table order. */
  lemma {:induction false} CitiesInKeepsOrder(cities: seq<City>, region: string)
    ensures IsSubsequence(CitiesIn(cities, region), cities)
    decreases |cities|
  {
    if cities != [] {
      CitiesInKeepsOrder(cities[1..], region);
    }
  }

  /** Appending one city extends the group of its region and no other. */
  lemma {:induction false} CitiesInAppend(cities: seq<City>, c: City, region: string)
    ensures CitiesIn(cities + [c], region) == CitiesIn(cities, region) + (if c.region == region then [c] else [])
    decreases |cities|
  {
    if cities == [] {
      assert cities + [c] == [c];
    } else {
      assert (cities + [c])[1..] == cities[1..] + [c];
      CitiesInAppend(cities[1..], c, region);
    }
  }

  /** The regions that occur in `cities`. */
  function RegionsOf(cities: seq<City>): set<string>
  {
    if cities == [] then {} else {cities[0].region} + RegionsOf(cities[1..])
  }

  /** A region occurs exactly when some city lies in it. */
  lemma {:induction false} RegionsOfMeansSomeCity(cities: seq<City>, region: string)
    ensures region in RegionsOf(cities) <==> exists c :: c in cities && c.region == region
    decreases |cities|
  {
    if cities != [] {
      RegionsOfMeansSomeCity(cities[1..], region);
      if exists c :: c in cities && c.region == region {
        var c :| c in cities && c.region == region;
        assert c == cities[0] || c in cities[1..];
      }
    }
  }

  /** Appending one city adds its region to the regions that occur. */
  lemma {:induction false} RegionsOfAppend(done: seq<City>, c: City)
    ensures RegionsOf(done + [c]) == RegionsOf(done) + {c.region}
    decreases |done|
  {
    if done == [] {
      assert done + [c] == [c];
    } else {
      assert (done + [c])[1..] == done[1..] + [c];
      RegionsOfAppend(done[1..], c);
    }
  }

  /** A region that does not occur has an empty group. */
  lemma {:induction false} CitiesInOutside(cities: seq<City>, region: string)
    requires region !in RegionsOf(cities)
    ensures CitiesIn(cities, region) == []
    decreases |cities|
  {
    if cities != [] {
      CitiesInOutside(cities[1..], region);
    }
  }

  /** Every city of the table lies in the group of its own region and in no other. */
  lemma CityInExactlyOneGroup(cities: seq<City>, c: City, region: string)
    requires c in cities
    ensures c.region in RegionsOf(cities)
    ensures c in CitiesIn(cities, region) <==> region == c.region
  {
    RegionsOfMeansSomeCity(cities, c.region);
  }

  /** The grouping of `done`: one entry per region that occurs, holding that region's cities in order. */
  predicate IsGrouping(grouped: map<string, seq<City>>, done: seq<City>)
  {
    grouped.Keys == RegionsOf(done) && forall region :: region in grouped ==> grouped[region] == CitiesIn(done, region)
  }

  /** One step of the grouping loop: appending `c` to its region's group (created empty when missing). */
  lemma GroupStep(done: seq<City>, c: City, grouped: map<string, seq<City>>, next: map<string, seq<City>>)
    requires IsGrouping(grouped, done)
    requires next == grouped[c.region := (if c.region in grouped then grouped[c.region] else []) + [c]]
    ensures IsGrouping(next, done + [c])
  {
    RegionsOfAppend(done, c);
    var old_group := if c.region in grouped then grouped[c.region] else [];
    assert old_group == CitiesIn(done, c.region) by {
      if c.region !in grouped {
        CitiesInOutside(done, c.region);
      }
    }
    forall region | region in next
      ensures next[region] == CitiesIn(done + [c], region)
    {
      CitiesInAppend(done, c, region);
    }
  }

  lemma PrefixGrows(cities: seq<City>, i: int)
    requires 0 <= i < |cities|
    ensures cities[..i + 1] == cities[..i] + [cities[i]]
  {
  }

  /** The loop of `getGroupedByRegion` over a table. */
  method GroupByRegion(cities: seq<City>) returns (grouped: map<string, seq<City>>)
    ensures grouped.Keys == RegionsOf(cities)
    ensures forall region :: region in grouped ==> grouped[region] == CitiesIn(cities, region)
  {
    grouped := map[];
    var i := 0;
    while i < |cities|
      invariant 0 <= i <= |cities|
      invariant IsGrouping(grouped, cities[..i])
    {
      var city := cities[i];
      var next := grouped[city.region := (if city.region in grouped then grouped[city.region] else []) + [city]];
      GroupStep(cities[..i], city, grouped, next);
      PrefixGrows(cities, i);
      grouped := next;
      i := i + 1;
    }
    assert cities[..i] == cities;
  }

  /** `getGroupedByRegion`: for each region that occurs, its cities in table order. */
  method GetGroupedByRegion() returns (grouped: map<string, seq<City>>)
    ensures grouped.Keys == RegionsOf(CITIES)
    ensures forall region :: region in grouped ==> grouped[region] == CitiesIn(CITIES, region)
  {
    grouped := GroupByRegion(CITIES);
  }
}
