/** The records a navigation area is made of, the layouts in which they are
    stored, and the two direction-indexed connection tables. */
module NavMesh {
  import opened Wire

  datatype Vector3 = Vector3(x: F32, y: F32, z: F32)

  datatype NavHidingSpot = NavHidingSpot(id: u32, location: Vector3, flags: u8)

  datatype ApproachArea = ApproachArea(
    approachHere: u32, approachPre: u32, approachType: u8, approachNext: u32, approachHow: u8)

  /** `distance` is a raw byte; 255 stands for the whole path. */
  datatype EncounterSpot = EncounterSpot(order: u32, distance: u8)

  datatype EncounterPath = EncounterPath(
    fromAreaId: u32, fromDirection: u8, toAreaId: u32, toDirection: u8, spots: seq<EncounterSpot>)

  datatype LightIntensity = LightIntensity(northWest: F32, northEast: F32, southWest: F32, southEast: F32)

  datatype VisibleArea = VisibleArea(id: u32, attributes: u8)

  /** One list of neighbouring area ids per planar direction. */
  type ConnectionLists = ls: seq<seq<u32>> | |ls| == 4 witness [[], [], [], []]
  datatype Connections = Connections(lists: ConnectionLists)

  /** One list of neighbouring area ids per ladder direction. */
  type LadderLists = ls: seq<seq<u32>> | |ls| == 2 witness [[], []]
  datatype LadderConnections = LadderConnections(lists: LadderLists)

  datatype NavDirection = North | East | South | West
  datatype LadderDirection = Up | Down

  datatype NavArea = NavArea(
    id: u32,
    northWest: Vector3,
    southEast: Vector3,
    northEastZ: F32,
    southWestZ: F32,
    flags: u32,
    connections: Connections,
    hidingSpots: seq<NavHidingSpot>,
    approachAreas: seq<ApproachArea>,
    encounterPaths: seq<EncounterPath>,
    place: u16,
    lightIntensity: LightIntensity,
    ladderConnections: LadderConnections,
    earliestOccupyFirstTeam: F32,
    earliestOccupySecondTeam: F32,
    visibleAreas: seq<VisibleArea>,
    inheritVisibilityFromAreaId: u32)

  // ---------------------------------------------------------------------------
  // Directions and indexing

  /** The discriminant of a planar direction: its place in declaration order. */
  function NavSlot(d: NavDirection): (i: nat)
    ensures i < 4
  {
    match d
    case North => 0
    case East => 1
    case South => 2
    case West => 3
  }

  function NavDirectionOfSlot(i: nat): NavDirection
    requires i < 4
  {
    if i == 0 then North else if i == 1 then East else if i == 2 then South else West
  }

  /** The discriminant of a ladder direction. */
  function LadderSlot(d: LadderDirection): (i: nat)
    ensures i < 2
  {
    match d
    case Up => 0
    case Down => 1
  }

  function LadderDirectionOfSlot(i: nat): LadderDirection
    requires i < 2
  {
    if i == 0 then Up else Down
  }

  /** Every direction has its own slot and every slot belongs to a direction, so
      indexing a table by direction never goes out of bounds and never aliases. */
  lemma SlotsMatchDirections()
    ensures forall d: NavDirection :: NavDirectionOfSlot(NavSlot(d)) == d
    ensures forall i: nat :: i < 4 ==> NavSlot(NavDirectionOfSlot(i)) == i
    ensures forall d: LadderDirection :: LadderDirectionOfSlot(LadderSlot(d)) == d
    ensures forall i: nat :: i < 2 ==> LadderSlot(LadderDirectionOfSlot(i)) == i
  {
    forall d: NavDirection ensures NavDirectionOfSlot(NavSlot(d)) == d {
      match d
      case North =>
      case East =>
      case South =>
      case West =>
    }
  }

  /** `connections[direction]`: total, as the table has exactly one slot per direction. */
  function ConnectionsTo(c: Connections, d: NavDirection): (ids: seq<u32>)
    ensures ids in c.lists
  {
    c.lists[NavSlot(d)]
  }

  /** `ladder_connections[direction]`. */
  function LadderConnectionsTo(c: LadderConnections, d: LadderDirection): (ids: seq<u32>)
    ensures ids in c.lists
  {
    c.lists[LadderSlot(d)]
  }

  /** Indexing by the directions in declaration order lists the whole table, each
      slot once. */
  lemma ConnectionsByDirection(c: Connections)
    ensures [ConnectionsTo(c, North), ConnectionsTo(c, East), ConnectionsTo(c, South), ConnectionsTo(c, West)]
      == c.lists
  {
  }

  lemma LadderConnectionsByDirection(c: LadderConnections)
    ensures [LadderConnectionsTo(c, Up), LadderConnectionsTo(c, Down)] == c.lists
  {
  }

  // ---------------------------------------------------------------------------
  // Encodings: the bytes a record occupies, field after field in declaration order

  function EncodeVector3(v: Vector3): seq<u8> {
    EncodeF32(v.x) + EncodeF32(v.y) + EncodeF32(v.z)
  }

  function EncodeHidingSpot(h: NavHidingSpot): seq<u8> {
    EncodeU32(h.id) + EncodeVector3(h.location) + EncodeU8(h.flags)
  }

  function EncodeApproachArea(a: ApproachArea): seq<u8> {
    EncodeU32(a.approachHere) + EncodeU32(a.approachPre) + EncodeU8(a.approachType)
      + EncodeU32(a.approachNext) + EncodeU8(a.approachHow)
  }

  function EncodeEncounterSpot(e: EncounterSpot): seq<u8> {
    EncodeU32(e.order) + EncodeU8(e.distance)
  }

  /** The spot list is preceded by an 8-bit count. */
  function EncodeEncounterPath(e: EncounterPath): seq<u8> {
    EncodeU32(e.fromAreaId) + EncodeU8(e.fromDirection) + EncodeU32(e.toAreaId) + EncodeU8(e.toDirection)
      + EncodeCounted(e.spots, 1, EncodeEncounterSpot)
  }

  function EncodeLightIntensity(l: LightIntensity): seq<u8> {
    EncodeF32(l.northWest) + EncodeF32(l.northEast) + EncodeF32(l.southWest) + EncodeF32(l.southEast)
  }

  function EncodeVisibleArea(v: VisibleArea): seq<u8> {
    EncodeU32(v.id) + EncodeU8(v.attributes)
  }

  /** A connection list: its 32-bit count, then the ids. */
  function EncodeIdList(ids: seq<u32>): seq<u8> {
    EncodeCounted(ids, 4, EncodeU32)
  }

  function EncodeConnections(c: Connections): seq<u8> {
    EncodeMany(c.lists, EncodeIdList)
  }

  function EncodeLadderConnections(c: LadderConnections): seq<u8> {
    EncodeMany(c.lists, EncodeIdList)
  }

  /** A path can be written only if its spots fit the 8-bit count. */
  predicate EncounterPathFits(e: EncounterPath) {
    |e.spots| < 0x100
  }

  /** A connection list can be written only if its length fits the 32-bit count. */
  predicate IdListFits(ids: seq<u32>) {
    |ids| < 0x1_0000_0000
  }

  predicate ConnectionsFit(c: Connections) {
    forall i :: 0 <= i < 4 ==> IdListFits(c.lists[i])
  }

  predicate LadderConnectionsFit(c: LadderConnections) {
    forall i :: 0 <= i < 2 ==> IdListFits(c.lists[i])
  }

  // ---------------------------------------------------------------------------
  // Decoders of the derived layouts: fields in declaration order

  function DecodeVector3(s: seq<u8>, pos: nat): (r: Res<Vector3>)
    ensures r.Ok? <==> pos + 12 <= |s|
    ensures r.Ok? ==> r.next == pos + 12
  {
    match ReadF32(s, pos) case Fail(err) => Fail(err) case Ok(x, p1) =>
    match ReadF32(s, p1) case Fail(err) => Fail(err) case Ok(y, p2) =>
    match ReadF32(s, p2) case Fail(err) => Fail(err) case Ok(z, p3) =>
    Ok(Vector3(x, y, z), p3)
  }

  function DecodeHidingSpot(s: seq<u8>, pos: nat): (r: Res<NavHidingSpot>)
    ensures r.Ok? <==> pos + 17 <= |s|
    ensures r.Ok? ==> r.next == pos + 17
  {
    match ReadU32(s, pos) case Fail(err) => Fail(err) case Ok(id, p1) =>
    match DecodeVector3(s, p1) case Fail(err) => Fail(err) case Ok(location, p2) =>
    match ReadU8(s, p2) case Fail(err) => Fail(err) case Ok(flags, p3) =>
    Ok(NavHidingSpot(id, location, flags), p3)
  }

  function DecodeApproachArea(s: seq<u8>, pos: nat): (r: Res<ApproachArea>)
    ensures r.Ok? <==> pos + 14 <= |s|
    ensures r.Ok? ==> r.next == pos + 14
  {
    match ReadU32(s, pos) case Fail(err) => Fail(err) case Ok(here, p1) =>
    match ReadU32(s, p1) case Fail(err) => Fail(err) case Ok(pre, p2) =>
    match ReadU8(s, p2) case Fail(err) => Fail(err) case Ok(kind, p3) =>
    match ReadU32(s, p3) case Fail(err) => Fail(err) case Ok(next, p4) =>
    match ReadU8(s, p4) case Fail(err) => Fail(err) case Ok(how, p5) =>
    Ok(ApproachArea(here, pre, kind, next, how), p5)
  }

  function DecodeEncounterSpot(s: seq<u8>, pos: nat): (r: Res<EncounterSpot>)
    ensures r.Ok? <==> pos + 5 <= |s|
    ensures r.Ok? ==> r.next == pos + 5
  {
    match ReadU32(s, pos) case Fail(err) => Fail(err) case Ok(order, p1) =>
    match ReadU8(s, p1) case Fail(err) => Fail(err) case Ok(distance, p2) =>
    Ok(EncounterSpot(order, distance), p2)
  }

  /** Four fixed fields, an 8-bit spot count and that many spots. */
  function DecodeEncounterPath(s: seq<u8>, pos: nat): (r: Res<EncounterPath>)
    ensures r.Ok? ==> EncounterPathFits(r.value)
  {
    match ReadU32(s, pos) case Fail(err) => Fail(err) case Ok(fromArea, p1) =>
    match ReadU8(s, p1) case Fail(err) => Fail(err) case Ok(fromDir, p2) =>
    match ReadU32(s, p2) case Fail(err) => Fail(err) case Ok(toArea, p3) =>
    match ReadU8(s, p3) case Fail(err) => Fail(err) case Ok(toDir, p4) =>
    Pow256Values();
    match DecodeCounted(s, p4, 1, DecodeEncounterSpot) case Fail(err) => Fail(err) case Ok(spots, p5) =>
    Ok(EncounterPath(fromArea, fromDir, toArea, toDir, spots), p5)
  }

  function DecodeLightIntensity(s: seq<u8>, pos: nat): (r: Res<LightIntensity>)
    ensures r.Ok? <==> pos + 16 <= |s|
    ensures r.Ok? ==> r.next == pos + 16
  {
    match ReadF32(s, pos) case Fail(err) => Fail(err) case Ok(nw, p1) =>
    match ReadF32(s, p1) case Fail(err) => Fail(err) case Ok(ne, p2) =>
    match ReadF32(s, p2) case Fail(err) => Fail(err) case Ok(sw, p3) =>
    match ReadF32(s, p3) case Fail(err) => Fail(err) case Ok(se, p4) =>
    Ok(LightIntensity(nw, ne, sw, se), p4)
  }

  /** The value of a light intensity that is not stored: all four corners zero. */
  function DefaultLightIntensity(): LightIntensity {
    LightIntensity(ZeroF32, ZeroF32, ZeroF32, ZeroF32)
  }

  function DecodeVisibleArea(s: seq<u8>, pos: nat): (r: Res<VisibleArea>)
    ensures r.Ok? <==> pos + 5 <= |s|
    ensures r.Ok? ==> r.next == pos + 5
  {
    match ReadU32(s, pos) case Fail(err) => Fail(err) case Ok(id, p1) =>
    match ReadU8(s, p1) case Fail(err) => Fail(err) case Ok(attributes, p2) =>
    Ok(VisibleArea(id, attributes), p2)
  }

  /** One connection list: a 32-bit count, then that many 32-bit ids. */
  function DecodeIdList(s: seq<u8>, pos: nat): (r: Res<seq<u32>>)
    ensures r.Ok? ==> IdListFits(r.value)
  {
    Pow256Values();
    DecodeCounted(s, pos, 4, ReadU32)
  }

  /** The four planar connection lists in the order North, East, South, West. */
  function DecodeConnections(s: seq<u8>, pos: nat): (r: Res<Connections>)
    ensures r.Ok? ==> ConnectionsFit(r.value)
  {
    DecodeManyAll(s, pos, 4, DecodeIdList, IdListFits);
    match DecodeMany(s, pos, 4, DecodeIdList) case Fail(err) => Fail(err) case Ok(lists, q) =>
    Ok(Connections(lists), q)
  }

  /** The two ladder connection lists in the order Up, Down. */
  function DecodeLadderConnections(s: seq<u8>, pos: nat): (r: Res<LadderConnections>)
    ensures r.Ok? ==> LadderConnectionsFit(r.value)
  {
    DecodeManyAll(s, pos, 2, DecodeIdList, IdListFits);
    match DecodeMany(s, pos, 2, DecodeIdList) case Fail(err) => Fail(err) case Ok(lists, q) =>
    Ok(LadderConnections(lists), q)
  }

  // ---------------------------------------------------------------------------
  // Layout lemmas: each decoder consumes exactly the encoding of what it returns,
  // and reading where an encoding stands gives the encoded record back.

  lemma Vector3Layout(s: seq<u8>, pos: nat, v: Vector3)
    ensures var r := DecodeVector3(s, pos); r.Ok? ==> At(s, pos, EncodeVector3(r.value))
    ensures At(s, pos, EncodeVector3(v)) ==> DecodeVector3(s, pos) == Ok(v, pos + 12)
  {
    var r := DecodeVector3(s, pos);
    if r.Ok? {
      var w := r.value;
      ReadF32Encodes(s, pos);
      ReadF32Encodes(s, pos + 4);
      ReadF32Encodes(s, pos + 8);
      AtConcat(s, pos, EncodeF32(w.x), EncodeF32(w.y));
      AtConcat(s, pos, EncodeF32(w.x) + EncodeF32(w.y), EncodeF32(w.z));
    }
    if At(s, pos, EncodeVector3(v)) {
      AtConcat(s, pos, EncodeF32(v.x) + EncodeF32(v.y), EncodeF32(v.z));
      AtConcat(s, pos, EncodeF32(v.x), EncodeF32(v.y));
      ReadF32At(s, pos, v.x);
      ReadF32At(s, pos + 4, v.y);
      ReadF32At(s, pos + 8, v.z);
    }
  }

  lemma HidingSpotLayout(s: seq<u8>, pos: nat, h: NavHidingSpot)
    ensures var r := DecodeHidingSpot(s, pos); r.Ok? ==> At(s, pos, EncodeHidingSpot(r.value))
    ensures At(s, pos, EncodeHidingSpot(h)) ==> DecodeHidingSpot(s, pos) == Ok(h, pos + 17)
  {
    var r := DecodeHidingSpot(s, pos);
    if r.Ok? {
      var g := r.value;
      ReadU32Encodes(s, pos);
      ReadU8Encodes(s, pos + 16);
      Vector3Layout(s, pos + 4, g.location);
      AtConcat(s, pos, EncodeU32(g.id), EncodeVector3(g.location));
      AtConcat(s, pos, EncodeU32(g.id) + EncodeVector3(g.location), EncodeU8(g.flags));
    }
    if At(s, pos, EncodeHidingSpot(h)) {
      AtConcat(s, pos, EncodeU32(h.id) + EncodeVector3(h.location), EncodeU8(h.flags));
      AtConcat(s, pos, EncodeU32(h.id), EncodeVector3(h.location));
      ReadU32At(s, pos, h.id);
      Vector3Layout(s, pos + 4, h.location);
      ReadU8At(s, pos + 16, h.flags);
    }
  }

  lemma ApproachAreaLayout(s: seq<u8>, pos: nat, a: ApproachArea)
    ensures var r := DecodeApproachArea(s, pos); r.Ok? ==> At(s, pos, EncodeApproachArea(r.value))
    ensures At(s, pos, EncodeApproachArea(a)) ==> DecodeApproachArea(s, pos) == Ok(a, pos + 14)
  {
    var r := DecodeApproachArea(s, pos);
    if r.Ok? {
      var b := r.value;
      ReadU32Encodes(s, pos);
      ReadU32Encodes(s, pos + 4);
      ReadU8Encodes(s, pos + 8);
      ReadU32Encodes(s, pos + 9);
      ReadU8Encodes(s, pos + 13);
      AtConcat(s, pos, EncodeU32(b.approachHere), EncodeU32(b.approachPre));
      AtConcat(s, pos, EncodeU32(b.approachHere) + EncodeU32(b.approachPre), EncodeU8(b.approachType));
      AtConcat(s, pos, EncodeU32(b.approachHere) + EncodeU32(b.approachPre) + EncodeU8(b.approachType),
        EncodeU32(b.approachNext));
      AtConcat(s, pos, EncodeU32(b.approachHere) + EncodeU32(b.approachPre) + EncodeU8(b.approachType)
        + EncodeU32(b.approachNext), EncodeU8(b.approachHow));
    }
    if At(s, pos, EncodeApproachArea(a)) {
      AtConcat(s, pos, EncodeU32(a.approachHere) + EncodeU32(a.approachPre) + EncodeU8(a.approachType)
        + EncodeU32(a.approachNext), EncodeU8(a.approachHow));
      AtConcat(s, pos, EncodeU32(a.approachHere) + EncodeU32(a.approachPre) + EncodeU8(a.approachType),
        EncodeU32(a.approachNext));
      AtConcat(s, pos, EncodeU32(a.approachHere) + EncodeU32(a.approachPre), EncodeU8(a.approachType));
      AtConcat(s, pos, EncodeU32(a.approachHere), EncodeU32(a.approachPre));
      ReadU32At(s, pos, a.approachHere);
      ReadU32At(s, pos + 4, a.approachPre);
      ReadU8At(s, pos + 8, a.approachType);
      ReadU32At(s, pos + 9, a.approachNext);
      ReadU8At(s, pos + 13, a.approachHow);
    }
  }

  lemma EncounterSpotLayout(s: seq<u8>, pos: nat, e: EncounterSpot)
    ensures var r := DecodeEncounterSpot(s, pos); r.Ok? ==> At(s, pos, EncodeEncounterSpot(r.value))
    ensures At(s, pos, EncodeEncounterSpot(e)) ==> DecodeEncounterSpot(s, pos) == Ok(e, pos + 5)
  {
    var r := DecodeEncounterSpot(s, pos);
    if r.Ok? {
      ReadU32Encodes(s, pos);
      ReadU8Encodes(s, pos + 4);
      AtConcat(s, pos, EncodeU32(r.value.order), EncodeU8(r.value.distance));
    }
    if At(s, pos, EncodeEncounterSpot(e)) {
      AtConcat(s, pos, EncodeU32(e.order), EncodeU8(e.distance));
      ReadU32At(s, pos, e.order);
      ReadU8At(s, pos + 4, e.distance);
    }
  }

  lemma VisibleAreaLayout(s: seq<u8>, pos: nat, v: VisibleArea)
    ensures var r := DecodeVisibleArea(s, pos); r.Ok? ==> At(s, pos, EncodeVisibleArea(r.value))
    ensures At(s, pos, EncodeVisibleArea(v)) ==> DecodeVisibleArea(s, pos) == Ok(v, pos + 5)
  {
    var r := DecodeVisibleArea(s, pos);
    if r.Ok? {
      ReadU32Encodes(s, pos);
      ReadU8Encodes(s, pos + 4);
      AtConcat(s, pos, EncodeU32(r.value.id), EncodeU8(r.value.attributes));
    }
    if At(s, pos, EncodeVisibleArea(v)) {
      AtConcat(s, pos, EncodeU32(v.id), EncodeU8(v.attributes));
      ReadU32At(s, pos, v.id);
      ReadU8At(s, pos + 4, v.attributes);
    }
  }

  lemma LightIntensityLayout(s: seq<u8>, pos: nat, l: LightIntensity)
    ensures var r := DecodeLightIntensity(s, pos); r.Ok? ==> At(s, pos, EncodeLightIntensity(r.value))
    ensures At(s, pos, EncodeLightIntensity(l)) ==> DecodeLightIntensity(s, pos) == Ok(l, pos + 16)
  {
    var r := DecodeLightIntensity(s, pos);
    if r.Ok? {
      var m := r.value;
      ReadF32Encodes(s, pos);
      ReadF32Encodes(s, pos + 4);
      ReadF32Encodes(s, pos + 8);
      ReadF32Encodes(s, pos + 12);
      AtConcat(s, pos, EncodeF32(m.northWest), EncodeF32(m.northEast));
      AtConcat(s, pos, EncodeF32(m.northWest) + EncodeF32(m.northEast), EncodeF32(m.southWest));
      AtConcat(s, pos, EncodeF32(m.northWest) + EncodeF32(m.northEast) + EncodeF32(m.southWest),
        EncodeF32(m.southEast));
    }
    if At(s, pos, EncodeLightIntensity(l)) {
      AtConcat(s, pos, EncodeF32(l.northWest) + EncodeF32(l.northEast) + EncodeF32(l.southWest),
        EncodeF32(l.southEast));
      AtConcat(s, pos, EncodeF32(l.northWest) + EncodeF32(l.northEast), EncodeF32(l.southWest));
      AtConcat(s, pos, EncodeF32(l.northWest), EncodeF32(l.northEast));
      ReadF32At(s, pos, l.northWest);
      ReadF32At(s, pos + 4, l.northEast);
      ReadF32At(s, pos + 8, l.southWest);
      ReadF32At(s, pos + 12, l.southEast);
    }
  }

  lemma IdListLayout(s: seq<u8>, pos: nat, ids: seq<u32>)
    ensures var r := DecodeIdList(s, pos); r.Ok? ==> At(s, pos, EncodeIdList(r.value))
    ensures |EncodeIdList(ids)| == 4 + 4 * |ids|
    ensures IdListFits(ids) && At(s, pos, EncodeIdList(ids)) ==> DecodeIdList(s, pos) == Ok(ids, pos + 4 + 4 * |ids|)
  {
    U32Codec();
    Pow256Values();
    DecodeCountedEncodes(s, pos, 4, ReadU32, EncodeU32);
    EncodeManyLength(ids, EncodeU32, 4);
    if IdListFits(ids) && At(s, pos, EncodeIdList(ids)) {
      DecodeCountedInverts(s, pos, ids, 4, ReadU32, EncodeU32, Always);
    }
  }

  lemma EncounterPathLength(e: EncounterPath)
    ensures |EncodeEncounterPath(e)| == 11 + 5 * |e.spots|
  {
    forall i | 0 <= i < |e.spots| ensures |EncodeEncounterSpot(e.spots[i])| == 5 { }
    EncodeManyLength(e.spots, EncodeEncounterSpot, 5);
  }

  lemma EncounterPathLayout(s: seq<u8>, pos: nat, e: EncounterPath)
    ensures var r := DecodeEncounterPath(s, pos); r.Ok? ==> At(s, pos, EncodeEncounterPath(r.value))
    ensures EncounterPathFits(e) && At(s, pos, EncodeEncounterPath(e)) ==>
      DecodeEncounterPath(s, pos) == Ok(e, pos + 11 + 5 * |e.spots|)
  {
    EncounterPathEncodes(s, pos);
    if EncounterPathFits(e) && At(s, pos, EncodeEncounterPath(e)) {
      EncounterPathInverts(s, pos, e);
    }
  }

  lemma EncounterPathEncodes(s: seq<u8>, pos: nat)
    ensures var r := DecodeEncounterPath(s, pos); r.Ok? ==> At(s, pos, EncodeEncounterPath(r.value))
  {
    var r := DecodeEncounterPath(s, pos);
    if r.Ok? {
      var f := r.value;
      ReadU32Encodes(s, pos);
      ReadU8Encodes(s, pos + 4);
      ReadU32Encodes(s, pos + 5);
      ReadU8Encodes(s, pos + 9);
      EncounterSpotCodec();
      DecodeCountedEncodes(s, pos + 10, 1, DecodeEncounterSpot, EncodeEncounterSpot);
      assert At(s, pos + 10, EncodeCounted(f.spots, 1, EncodeEncounterSpot));
      var head := EncodeU32(f.fromAreaId) + EncodeU8(f.fromDirection) + EncodeU32(f.toAreaId);
      AtConcat(s, pos, EncodeU32(f.fromAreaId), EncodeU8(f.fromDirection));
      AtConcat(s, pos, EncodeU32(f.fromAreaId) + EncodeU8(f.fromDirection), EncodeU32(f.toAreaId));
      AtConcat(s, pos, head, EncodeU8(f.toDirection));
      AtConcat(s, pos, head + EncodeU8(f.toDirection), EncodeCounted(f.spots, 1, EncodeEncounterSpot));
    }
  }

  lemma EncounterPathInverts(s: seq<u8>, pos: nat, e: EncounterPath)
    requires EncounterPathFits(e) && At(s, pos, EncodeEncounterPath(e))
    ensures DecodeEncounterPath(s, pos) == Ok(e, pos + 11 + 5 * |e.spots|)
  {
    EncounterPathLength(e);
    EncounterPathFieldsAt(s, pos, e);
    EncounterSpotCodec();
    Pow256Values();
    DecodeCountedInverts(s, pos + 10, e.spots, 1, DecodeEncounterSpot, EncodeEncounterSpot, Always);
  }

  /** The fixed fields of an encoded path read back, and the counted spots follow. */
  lemma EncounterPathFieldsAt(s: seq<u8>, pos: nat, e: EncounterPath)
    requires At(s, pos, EncodeEncounterPath(e))
    ensures ReadU32(s, pos) == Ok(e.fromAreaId, pos + 4)
    ensures ReadU8(s, pos + 4) == Ok(e.fromDirection, pos + 5)
    ensures ReadU32(s, pos + 5) == Ok(e.toAreaId, pos + 9)
    ensures ReadU8(s, pos + 9) == Ok(e.toDirection, pos + 10)
    ensures At(s, pos + 10, EncodeCounted(e.spots, 1, EncodeEncounterSpot))
  {
    var head := EncodeU32(e.fromAreaId) + EncodeU8(e.fromDirection) + EncodeU32(e.toAreaId);
    var spots := EncodeCounted(e.spots, 1, EncodeEncounterSpot);
    AtConcat(s, pos, head + EncodeU8(e.toDirection), spots);
    AtConcat(s, pos, head, EncodeU8(e.toDirection));
    AtConcat(s, pos, EncodeU32(e.fromAreaId) + EncodeU8(e.fromDirection), EncodeU32(e.toAreaId));
    AtConcat(s, pos, EncodeU32(e.fromAreaId), EncodeU8(e.fromDirection));
    ReadU32At(s, pos, e.fromAreaId);
    ReadU8At(s, pos + 4, e.fromDirection);
    ReadU32At(s, pos + 5, e.toAreaId);
    ReadU8At(s, pos + 9, e.toDirection);
  }

  // The same facts, for every position at once, in the form the list lemmas take.

  lemma HidingSpotCodec()
    ensures Encodes(DecodeHidingSpot, EncodeHidingSpot)
    ensures Inverts(DecodeHidingSpot, EncodeHidingSpot, Always)
  {
    forall s: seq<u8>, pos: nat | DecodeHidingSpot(s, pos).Ok?
      ensures At(s, pos, EncodeHidingSpot(DecodeHidingSpot(s, pos).value))
    {
      HidingSpotLayout(s, pos, DecodeHidingSpot(s, pos).value);
    }
    forall h: NavHidingSpot, s: seq<u8>, pos: nat | At(s, pos, EncodeHidingSpot(h))
      ensures DecodeHidingSpot(s, pos) == Ok(h, pos + |EncodeHidingSpot(h)|)
    {
      HidingSpotLayout(s, pos, h);
    }
  }

  lemma ApproachAreaCodec()
    ensures Encodes(DecodeApproachArea, EncodeApproachArea)
    ensures Inverts(DecodeApproachArea, EncodeApproachArea, Always)
  {
    forall s: seq<u8>, pos: nat | DecodeApproachArea(s, pos).Ok?
      ensures At(s, pos, EncodeApproachArea(DecodeApproachArea(s, pos).value))
    {
      ApproachAreaLayout(s, pos, DecodeApproachArea(s, pos).value);
    }
    forall a: ApproachArea, s: seq<u8>, pos: nat | At(s, pos, EncodeApproachArea(a))
      ensures DecodeApproachArea(s, pos) == Ok(a, pos + |EncodeApproachArea(a)|)
    {
      ApproachAreaLayout(s, pos, a);
    }
  }

  lemma EncounterSpotCodec()
    ensures Encodes(DecodeEncounterSpot, EncodeEncounterSpot)
    ensures Inverts(DecodeEncounterSpot, EncodeEncounterSpot, Always)
  {
    forall s: seq<u8>, pos: nat | DecodeEncounterSpot(s, pos).Ok?
      ensures At(s, pos, EncodeEncounterSpot(DecodeEncounterSpot(s, pos).value))
    {
      EncounterSpotLayout(s, pos, DecodeEncounterSpot(s, pos).value);
    }
    forall e: EncounterSpot, s: seq<u8>, pos: nat | At(s, pos, EncodeEncounterSpot(e))
      ensures DecodeEncounterSpot(s, pos) == Ok(e, pos + |EncodeEncounterSpot(e)|)
    {
      EncounterSpotLayout(s, pos, e);
    }
  }

  lemma EncounterPathCodec()
    ensures Encodes(DecodeEncounterPath, EncodeEncounterPath)
    ensures Inverts(DecodeEncounterPath, EncodeEncounterPath, EncounterPathFits)
  {
    forall s: seq<u8>, pos: nat | DecodeEncounterPath(s, pos).Ok?
      ensures At(s, pos, EncodeEncounterPath(DecodeEncounterPath(s, pos).value))
    {
      EncounterPathLayout(s, pos, DecodeEncounterPath(s, pos).value);
    }
    forall e: EncounterPath, s: seq<u8>, pos: nat | EncounterPathFits(e) && At(s, pos, EncodeEncounterPath(e))
      ensures DecodeEncounterPath(s, pos) == Ok(e, pos + |EncodeEncounterPath(e)|)
    {
      EncounterPathLayout(s, pos, e);
      EncounterPathLength(e);
    }
  }

  lemma VisibleAreaCodec()
    ensures Encodes(DecodeVisibleArea, EncodeVisibleArea)
    ensures Inverts(DecodeVisibleArea, EncodeVisibleArea, Always)
  {
    forall s: seq<u8>, pos: nat | DecodeVisibleArea(s, pos).Ok?
      ensures At(s, pos, EncodeVisibleArea(DecodeVisibleArea(s, pos).value))
    {
      VisibleAreaLayout(s, pos, DecodeVisibleArea(s, pos).value);
    }
    forall v: VisibleArea, s: seq<u8>, pos: nat | At(s, pos, EncodeVisibleArea(v))
      ensures DecodeVisibleArea(s, pos) == Ok(v, pos + |EncodeVisibleArea(v)|)
    {
      VisibleAreaLayout(s, pos, v);
    }
  }

  lemma IdListCodec()
    ensures Encodes(DecodeIdList, EncodeIdList)
    ensures Inverts(DecodeIdList, EncodeIdList, IdListFits)
  {
    forall s: seq<u8>, pos: nat | DecodeIdList(s, pos).Ok?
      ensures At(s, pos, EncodeIdList(DecodeIdList(s, pos).value))
      ensures DecodeIdList(s, pos).next == pos + |EncodeIdList(DecodeIdList(s, pos).value)|
    {
      IdListLayout(s, pos, DecodeIdList(s, pos).value);
    }
    forall ids: seq<u32>, s: seq<u8>, pos: nat | IdListFits(ids) && At(s, pos, EncodeIdList(ids))
      ensures DecodeIdList(s, pos) == Ok(ids, pos + |EncodeIdList(ids)|)
    {
      IdListLayout(s, pos, ids);
    }
  }

  // ---------------------------------------------------------------------------
  // Connection tables

  /** The number of ids in all lists together. */
  function TotalIds(ls: seq<seq<u32>>): nat {
    if ls == [] then 0 else |ls[0]| + TotalIds(ls[1..])
  }

  lemma {:induction false} IdListsLength(ls: seq<seq<u32>>)
    ensures |EncodeMany(ls, EncodeIdList)| == 4 * |ls| + 4 * TotalIds(ls)
    decreases |ls|
  {
    if ls != [] {
      IdListLayout([], 0, ls[0]);
      IdListsLength(ls[1..]);
    }
  }

  /** A connection table occupies a count and the ids of each of its `k` lists, in
      slot order. */
  lemma IdListsLayout(s: seq<u8>, pos: nat, k: nat, ls: seq<seq<u32>>)
    requires pos <= |s|
    ensures var r := DecodeMany(s, pos, k, DecodeIdList);
      r.Ok? ==> At(s, pos, EncodeMany(r.value, EncodeIdList))
                && r.next == pos + 4 * k + 4 * TotalIds(r.value)
    ensures (forall i :: 0 <= i < |ls| ==> IdListFits(ls[i])) && At(s, pos, EncodeMany(ls, EncodeIdList)) ==>
      DecodeMany(s, pos, |ls|, DecodeIdList) == Ok(ls, pos + 4 * |ls| + 4 * TotalIds(ls))
  {
    IdListCodec();
    var r := DecodeMany(s, pos, k, DecodeIdList);
    if r.Ok? {
      DecodeManyEncodes(s, pos, k, DecodeIdList, EncodeIdList);
      IdListsLength(r.value);
    }
    if (forall i :: 0 <= i < |ls| ==> IdListFits(ls[i])) && At(s, pos, EncodeMany(ls, EncodeIdList)) {
      DecodeManyInverts(s, pos, ls, DecodeIdList, EncodeIdList, IdListFits);
      IdListsLength(ls);
    }
  }

  /** The four planar lists occupy their counts and ids in slot order, and every list
      read fits its 32-bit count; writing them and reading back gives them again. */
  lemma ConnectionsLayout(s: seq<u8>, pos: nat, c: Connections)
    ensures |EncodeConnections(c)| == 16 + 4 * TotalIds(c.lists)
    ensures var r := DecodeConnections(s, pos);
      r.Ok? ==> ConnectionsFit(r.value) && At(s, pos, EncodeConnections(r.value))
                && r.next == pos + |EncodeConnections(r.value)|
    ensures ConnectionsFit(c) && At(s, pos, EncodeConnections(c)) ==>
      DecodeConnections(s, pos) == Ok(c, pos + |EncodeConnections(c)|)
  {
    IdListsLength(c.lists);
    DecodeManyAll(s, pos, 4, DecodeIdList, IdListFits);
    var r := DecodeConnections(s, pos);
    if r.Ok? {
      IdListsLayout(s, pos, 4, c.lists);
      IdListsLength(r.value.lists);
    }
    if ConnectionsFit(c) && At(s, pos, EncodeConnections(c)) {
      IdListsLayout(s, pos, 4, c.lists);
    }
  }

  /** The same for the two ladder lists. */
  lemma LadderConnectionsLayout(s: seq<u8>, pos: nat, c: LadderConnections)
    ensures |EncodeLadderConnections(c)| == 8 + 4 * TotalIds(c.lists)
    ensures var r := DecodeLadderConnections(s, pos);
      r.Ok? ==> LadderConnectionsFit(r.value) && At(s, pos, EncodeLadderConnections(r.value))
                && r.next == pos + |EncodeLadderConnections(r.value)|
    ensures LadderConnectionsFit(c) && At(s, pos, EncodeLadderConnections(c)) ==>
      DecodeLadderConnections(s, pos) == Ok(c, pos + |EncodeLadderConnections(c)|)
  {
    IdListsLength(c.lists);
    DecodeManyAll(s, pos, 2, DecodeIdList, IdListFits);
    var r := DecodeLadderConnections(s, pos);
    if r.Ok? {
      IdListsLayout(s, pos, 2, c.lists);
      IdListsLength(r.value.lists);
    }
    if LadderConnectionsFit(c) && At(s, pos, EncodeLadderConnections(c)) {
      IdListsLayout(s, pos, 2, c.lists);
    }
  }

  /** The list a direction indexes is the one read in that direction's turn: North
      first, then East, South and West, each list starting where the previous ends. */
  lemma ConnectionsReadInOrder(s: seq<u8>, pos: nat)
    requires DecodeConnections(s, pos).Ok?
    ensures var c := DecodeConnections(s, pos).value;
      var north := DecodeIdList(s, pos);
      && north.Ok? && ConnectionsTo(c, North) == north.value
      && var east := DecodeIdList(s, north.next);
      && east.Ok? && ConnectionsTo(c, East) == east.value
      && var south := DecodeIdList(s, east.next);
      && south.Ok? && ConnectionsTo(c, South) == south.value
      && var west := DecodeIdList(s, south.next);
      && west.Ok? && ConnectionsTo(c, West) == west.value
      && DecodeConnections(s, pos).next == west.next
  {
  }

  /** Up is read first, then Down. */
  lemma LadderConnectionsReadInOrder(s: seq<u8>, pos: nat)
    requires DecodeLadderConnections(s, pos).Ok?
    ensures var c := DecodeLadderConnections(s, pos).value;
      var up := DecodeIdList(s, pos);
      && up.Ok? && LadderConnectionsTo(c, Up) == up.value
      && var down := DecodeIdList(s, up.next);
      && down.Ok? && LadderConnectionsTo(c, Down) == down.value
      && DecodeLadderConnections(s, pos).next == down.next
  {
  }

  /** One id list: its 32-bit count, then a loop reading that many ids. */
  method ReadIdList(data: seq<u8>, pos: nat) returns (r: Res<seq<u32>>)
    ensures r == DecodeIdList(data, pos)
  {
    var count := ReadU32(data, pos);
    if count.Fail? {
      return Fail(count.error);
    }
    var n := count.value as nat;
    ghost var spec := DecodeMany(data, count.next, n, ReadU32);
    assert DecodeIdList(data, pos) == spec;
    var ids: seq<u32> := [];
    var p := count.next;
    PrependNothing([], spec, p);
    for j := 0 to n
      invariant spec == Prepend(ids, DecodeMany(data, p, n - j, ReadU32))
    {
      var id := ReadU32(data, p);
      if id.Fail? {
        return Fail(id.error);
      }
      DecodeManyStep(data, p, n - j, ReadU32, ids, id.value, id.next);
      ids := ids + [id.value];
      p := id.next;
    }
    PrependNothing(ids, Fail(NotEnoughData(0, 0)), p);
    return Ok(ids, p);
  }

  /** `k` id lists in slot order; the slots are filled one after the other, so the
      fixed-size array `Connections::read` fills is the sequence of lists read so far. */
  method ReadIdLists(data: seq<u8>, pos: nat, k: nat) returns (r: Res<seq<seq<u32>>>)
    ensures r == DecodeMany(data, pos, k, DecodeIdList)
  {
    ghost var spec := DecodeMany(data, pos, k, DecodeIdList);
    var lists: seq<seq<u32>> := [];
    var p := pos;
    PrependNothing([], spec, pos);
    for d := 0 to k
      invariant spec == Prepend(lists, DecodeMany(data, p, k - d, DecodeIdList))
    {
      var ids := ReadIdList(data, p);
      if ids.Fail? {
        DecodeManyFirstFails(data, p, k - d, DecodeIdList, lists, spec);
        return Fail(ids.error);
      }
      DecodeManyStep(data, p, k - d, DecodeIdList, lists, ids.value, ids.next);
      lists := lists + [ids.value];
      p := ids.next;
    }
    PrependNothing(lists, Fail(NotEnoughData(0, 0)), p);
    return Ok(lists, p);
  }

  /** `Connections::read`: the four planar lists, North, East, South, West. */
  method ReadConnections(data: seq<u8>, pos: nat) returns (r: Res<Connections>)
    ensures r == DecodeConnections(data, pos)
  {
    var lists := ReadIdLists(data, pos, 4);
    if lists.Fail? {
      return Fail(lists.error);
    }
    return Ok(Connections(lists.value), lists.next);
  }

  /** `LadderConnections::read`: the two ladder lists. */
  method ReadLadderConnections(data: seq<u8>, pos: nat) returns (r: Res<LadderConnections>)
    ensures r == DecodeLadderConnections(data, pos)
  {
    var lists := ReadIdLists(data, pos, 2);
    if lists.Fail? {
      return Fail(lists.error);
    }
    return Ok(LadderConnections(lists.value), lists.next);
  }
}
