/** The cursors of a search over any of the three layouts, and the flat cursors they
    stand for. */
module SearchPlaces {
  import opened Tables
  import opened FlatCursor
  import opened ArrayIndexes
  import opened BPlusIndex
  import opened BPlusTree
  import opened Delivery
  import opened Engine
  import opened EngineInvariant

  datatype Layout = InMemory | SortedArray(capacity: nat) | Tree(index: BPlusTreeIndex)

  /** One cursor: indexes into a table, or places on leaf pages. */
  datatype Place = AtIndexes(position: Position) | OnPages(left: DiskSide, right: DiskSide, last: Option<real>)

  /** How table number t of an index of n points is laid out. */
  ghost predicate StoredAs(v: View, layout: Layout, t: nat, n: nat) {
    |v.entries| == n && n > 0 &&
    match layout
    case InMemory => v.starts == [0]
    case SortedArray(capacity) => capacity > 0 && v.starts == RegionStarts(n, capacity)
    case Tree(index) => index.Valid() && t < |index.roots| && v == index.TableView(t, v.query)
  }

  ghost predicate LayoutOk(q: Query, layout: Layout) {
    0 < q.start.numPoints <= MAX_POINTS &&
    forall t :: 0 <= t < |q.views| ==> StoredAs(q.views[t], layout, t, q.start.numPoints)
  }

  /** A place in that table. */
  ghost predicate Rests(v: View, layout: Layout, t: nat, place: Place) {
    v.Valid() &&
    match layout
    case Tree(index) =>
      place.OnPages? && index.Valid() && t < |index.roots| && OnLeaves(index, t, place) &&
      Straddles(v, PagesFlat(index, t, place))
    case _ => place.AtIndexes? && Placed(v, place.position)
  }

  ghost predicate OnLeaves(index: BPlusTreeIndex, t: nat, place: Place)
    requires place.OnPages? && index.Valid() && t < |index.roots|
  {
    SideOk(index.pages, index.TableLeaves(t), place.left) && SideOk(index.pages, index.TableLeaves(t), place.right)
  }

  ghost function PagesFlat(index: BPlusTreeIndex, t: nat, place: Place): Cursor
    requires place.OnPages? && index.Valid() && t < |index.roots| && OnLeaves(index, t, place)
  {
    DiskFlat(index.pages, index.TableLeaves(t), place.left, place.right, place.last)
  }

  /** The flat cursor a place stands for. */
  ghost function FlatAt(v: View, layout: Layout, t: nat, place: Place): (c: Cursor)
    requires Rests(v, layout, t, place)
    ensures Straddles(v, c)
  {
    match layout
    case Tree(index) => PagesFlat(index, t, place)
    case _ => place.position.Flat(|v.entries|)
  }

  ghost predicate AllPlaced(q: Query, layout: Layout, places: seq<Place>) {
    |places| == |q.views| && forall t :: 0 <= t < |q.views| ==> Rests(q.views[t], layout, t, places[t])
  }

  ghost function Flats(q: Query, layout: Layout, places: seq<Place>): (cs: seq<Cursor>)
    requires AllPlaced(q, layout, places)
    ensures |cs| == |places|
  {
    seq(|places|, t requires 0 <= t < |places| => FlatAt(q.views[t], layout, t, places[t]))
  }

  // ---- scanning --------------------------------------------------------

  /** The scan of the layout at hand is the flat scan. */
  method ScanOne(layout: Layout, v: View, t: nat, place0: Place, call: Call, ghost n: nat)
    returns (place: Place, hits: seq<Entry>, report: Report)
    requires StoredAs(v, layout, t, n) && Rests(v, layout, t, place0) && Admissible(FlatAt(v, layout, t, place0), call)
    ensures Rests(v, layout, t, place)
    ensures Scanned(FlatAt(v, layout, t, place), hits, report) == FlatCursor.Scan(v, FlatAt(v, layout, t, place0), call)
  {
    hide FlatCursor.Scan, Straddles, RegionStarts, DiskFlat, SideOk, Chain;
    match layout {
      case InMemory =>
        var position;
        position, hits, report := MemoryScan(v, place0.position, call);
        place := AtIndexes(position);
      case SortedArray(capacity) =>
        var position;
        position, hits, report := ArrayScan(v, capacity, place0.position, call);
        place := AtIndexes(position);
      case Tree(index) =>
        var left, right;
        left, right, hits, report := DiskScan(index.fl, index.pages, index.leafRanks, v.query,
                                              place0.left, place0.right, place0.last, call, v, index.TableLeaves(t));
        place := OnPages(left, right, Some(call.bound));
    }
  }

  lemma PlaceMoves(q: Query, layout: Layout, places: seq<Place>, table: nat, place: Place)
    requires AllPlaced(q, layout, places) && table < |q.views| && Rests(q.views[table], layout, table, place)
    ensures AllPlaced(q, layout, places[table := place])
    ensures Flats(q, layout, places[table := place])
         == Flats(q, layout, places)[table := FlatAt(q.views[table], layout, table, place)]
    ensures Rests(q.views[table], layout, table, places[table])
    ensures Flats(q, layout, places)[table] == FlatAt(q.views[table], layout, table, places[table])
  {
    assert Rests(q.views[table], layout, table, places[table]);
    hide Rests, FlatAt;
  }

  /** The cursor's part of a scan turn. */
  method MoveCursor(q: Query, layout: Layout, places0: seq<Place>, table: nat, call: Call)
    returns (places: seq<Place>, hits: seq<Entry>, report: Report)
    requires LayoutOk(q, layout) && AllPlaced(q, layout, places0) && table < |q.views|
    requires Admissible(Flats(q, layout, places0)[table], call)
    ensures AllPlaced(q, layout, places)
    ensures InBounds(q.views[table], Flats(q, layout, places0)[table])
    ensures var scan := FlatCursor.Scan(q.views[table], Flats(q, layout, places0)[table], call);
            scan.hits == hits && scan.report == report &&
            Flats(q, layout, places) == Flats(q, layout, places0)[table := scan.cursor]
  {
    var place;
    assert StoredAs(q.views[table], layout, table, q.start.numPoints) &&
           Rests(q.views[table], layout, table, places0[table]);
    hide FlatCursor.Scan, StoredAs, Rests, AllPlaced, LayoutOk;
    place, hits, report := ScanOne(layout, q.views[table], table, places0[table], call, q.start.numPoints);
    places := places0[table := place];
    PlaceMoves(q, layout, places0, table, place);
  }

  // ---- placing ---------------------------------------------------------

  ghost predicate AtReset(q: Query, layout: Layout, t: nat, place: Place)
    requires t < |q.views|
  {
    TableOk(q, q.views[t]) && Rests(q.views[t], layout, t, place) &&
    FlatAt(q.views[t], layout, t, place) == Reset(q.views[t])
  }

  /** reset_cursor of the layout at hand. */
  method PlaceOne(q: Query, layout: Layout, t: nat) returns (place: Place)
    requires LayoutOk(q, layout) && t < |q.views| && TableOk(q, q.views[t])
    ensures AtReset(q, layout, t, place)
  {
    var v := q.views[t];
    assert StoredAs(v, layout, t, q.start.numPoints);
    match layout {
      case Tree(index) =>
        var left, right := index.PlaceSides(t, v.query);
        place := OnPages(left, right, None);
      case _ =>
        var p := FindLowerBound(v.entries, v.query);
        place := AtIndexes(Position(if p == 0 then NO_INDEX else p - 1, if p == |v.entries| then NO_INDEX else p,
                                    false, false, None));
    }
  }

  method PlaceAll(q: Query, layout: Layout) returns (places: seq<Place>)
    requires QueryOk(q) && LayoutOk(q, layout)
    ensures AllPlaced(q, layout, places)
    ensures Startable(q) ==> Flats(q, layout, places) == Begin(q).cursors
  {
    places := [];
    for t := 0 to |q.views|
      invariant |places| == t
      invariant forall i :: 0 <= i < t ==> AtReset(q, layout, i, places[i])
    {
      assert TableOk(q, q.views[t]);
      hide AtReset, LayoutOk;
      var place := PlaceOne(q, layout, t);
      places := places + [place];
    }
    forall t | 0 <= t < |q.views|
      ensures Rests(q.views[t], layout, t, places[t])
    {
      assert AtReset(q, layout, t, places[t]);
    }
  }
}
