/** The saved locations of `MainViewModel`: a list of (county, township)
    pairs shown to the user and kept in the preferences as one string, pairs
    joined by "`,`" and the two halves of a pair by "`!`". */
module Locations {
  import opened Results
  import opened Text
  import opened Storage

  /** (county, township). */
  type Location = (string, string)

  const LocationsKey := "locations"
  const ItemSep := "`,`"
  const PairSep := "`!`"

  /** `"${first}`!`${second}"`. */
  function EncodeItem(loc: Location): string {
    loc.0 + PairSep + loc.1
  }

  /** `substringBefore("`!`") to substringAfter("`!`")`: an item without the
      separator gives the whole item on both sides. */
  function DecodeItem(item: string): Location {
    (SubstringBefore(item, PairSep), SubstringAfter(item, PairSep))
  }

  /** `joinToString("`,`") { ... }`. */
  function Encode(locs: seq<Location>): string {
    Join(seq(|locs|, i requires 0 <= i < |locs| => EncodeItem(locs[i])), ItemSep)
  }

  /** `split("`,`").map { ... }`. */
  function Decode(text: string): (r: seq<Location>)
    ensures |r| == |Split(text, ItemSep)|
    ensures forall i :: 0 <= i < |r| ==> r[i] == DecodeItem(Split(text, ItemSep)[i])
  {
    var items := Split(text, ItemSep);
    seq(|items|, i requires 0 <= i < |items| => DecodeItem(items[i]))
  }

  /** The list read at start-up: nothing stored means no locations. */
  function Load(prefs: Prefs): seq<Location> {
    match GetString(prefs, LocationsKey)
    case None => []
    case Some(text) => Decode(text)
  }

  /** Neither half contains a backtick or a comma. The county must lack the
      backtick for `substringBefore` to stop at the right place; no piece of
      the stored string may hold a comma, or a township such as "x," would
      form a false "`,`" with the separator after it. */
  predicate Plain(loc: Location) {
    '`' !in loc.0 && ',' !in loc.0 && ',' !in loc.1
  }

  /** Round trip: a non-empty list of plain locations survives being stored
      and read back. */
  lemma DecodeEncode(locs: seq<Location>)
    requires |locs| > 0
    requires forall i :: 0 <= i < |locs| ==> Plain(locs[i])
    ensures Decode(Encode(locs)) == locs
  {
    var items := seq(|locs|, i requires 0 <= i < |locs| => EncodeItem(locs[i]));
    forall i | 0 <= i < |items|
      ensures PivotFree(items[i], ItemSep, 1)
    {
      assert items[i] == locs[i].0 + PairSep + locs[i].1;
      assert ',' !in PairSep;
      assert ItemSep[..1] == "`";
    }
    SplitJoin(items, ItemSep, 1);
    forall i | 0 <= i < |locs|
      ensures DecodeItem(items[i]) == locs[i]
    {
      SubstringsOfJoined(locs[i].0, PairSep, locs[i].1);
    }
  }

  /** The view model's list together with the preferences behind it. */
  datatype LocationsState = LocationsState(locations: seq<Location>, prefs: Prefs)

  /** The state after construction: the list as loaded. */
  function Init(prefs: Prefs): (st: LocationsState)
    ensures GetString(prefs, LocationsKey).None? ==> st.locations == []
  {
    LocationsState(Load(prefs), prefs)
  }

  /** `addLocation`: a location already listed changes neither the list nor
      the storage; any other is appended at the end and the whole list is
      written back. */
  function AddLocation(st: LocationsState, loc: Location): (r: LocationsState)
    ensures loc in st.locations ==> r == st
    ensures loc !in st.locations ==>
      && r.locations == st.locations + [loc]
      && GetString(r.prefs, LocationsKey) == Some(Encode(r.locations))
      && (forall k :: k != LocationsKey ==> GetString(r.prefs, k) == GetString(st.prefs, k))
      && (forall k, d :: GetInt(r.prefs, k, d) == GetInt(st.prefs, k, d))
    ensures loc in r.locations
  {
    if loc in st.locations then st
    else
      var locations := st.locations + [loc];
      LocationsState(locations, PutString(st.prefs, LocationsKey, Encode(locations)))
  }

  /** Adding the same location twice is the same as adding it once. */
  lemma AddLocationIdempotent(st: LocationsState, loc: Location)
    ensures AddLocation(AddLocation(st, loc), loc) == AddLocation(st, loc)
  {
  }

  /** The stored string reads back as the list on screen. */
  predicate Consistent(st: LocationsState) {
    Load(st.prefs) == st.locations
  }

  /** Right after construction the list and the storage agree. */
  lemma InitConsistent(prefs: Prefs)
    ensures Consistent(Init(prefs))
  {
  }

  /** With plain locations, adding keeps the list and the storage in
      agreement, so a restart shows the same list. */
  lemma AddLocationConsistent(st: LocationsState, loc: Location)
    requires Consistent(st)
    requires forall i :: 0 <= i < |st.locations| ==> Plain(st.locations[i])
    requires Plain(loc)
    ensures Consistent(AddLocation(st, loc))
  {
    if loc !in st.locations {
      var locs := st.locations + [loc];
      DecodeEncode(locs);
    }
  }
}
