/** The nav-file decoder: a version-gated header, a discarded place table, then
    `area_count` area records whose fields are also gated by the major version.
    The whole decode fails on the first error. */
module Parser {
  import opened Wire
  import opened NavMesh

  datatype ParseError =
    | ReadError(cause: StreamError)
    | InvalidMagicNumber(magic: u32)
    | UnsupportedVersion(version: u32)

  /** The decoder's overall result. */
  datatype Result<+T> = Success(value: T) | Failure(error: ParseError)

  /** The outcome of one step of the file-level decode: a value and the position
      after it, or the error that ends the decode. */
  datatype Parsed<+T> = Parsed(value: T, next: nat) | Rejected(error: ParseError)

  /** A short read becomes the decoder's `ReadError`. */
  function Lift<T>(r: Res<T>): (p: Parsed<T>)
    ensures p.Parsed? <==> r.Ok?
  {
    match r
    case Ok(v, q) => Parsed(v, q)
    case Fail(e) => Rejected(ReadError(e))
  }

  const Magic: u32 := 0xFEED_FACE
  const MinVersion: u32 := 6
  const MaxVersion: u32 := 16

  predicate SupportedVersion(major: u32) {
    MinVersion <= major <= MaxVersion
  }

  // ---------------------------------------------------------------------------
  // The version table

  /** The width in bytes of an area's flags field. */
  type FlagsWidth = n: nat | n == 1 || n == 2 || n == 4 witness 1

  /** Which optional fields a file of a given major version stores, and how wide
      its area flags are. */
  datatype Schema = Schema(
    hasMinorVersion: bool,
    hasIsAnalysed: bool,
    hasUnnamedAreas: bool,
    flagsBytes: FlagsWidth,
    hasApproachAreas: bool,
    hasLightIntensity: bool,
    hasVisibleAreas: bool)

  function SchemaFor(major: u32): Schema {
    Schema(
      hasMinorVersion := major >= 10,
      hasIsAnalysed := major >= 14,
      hasUnnamedAreas := major >= 12,
      flagsBytes := if major <= 8 then 1 else if major <= 12 then 2 else 4,
      hasApproachAreas := major < 15,
      hasLightIntensity := major >= 11,
      hasVisibleAreas := major >= 16)
  }

  /** Moving to a later version only adds optional fields and widens the flags, with
      one exception: the approach areas, which version 15 drops. */
  lemma LaterVersionsStoreMore(m1: u32, m2: u32)
    requires m1 <= m2
    ensures var a, b := SchemaFor(m1), SchemaFor(m2);
      && (a.hasMinorVersion ==> b.hasMinorVersion)
      && (a.hasIsAnalysed ==> b.hasIsAnalysed)
      && (a.hasUnnamedAreas ==> b.hasUnnamedAreas)
      && a.flagsBytes <= b.flagsBytes
      && (b.hasApproachAreas ==> a.hasApproachAreas)
      && (a.hasLightIntensity ==> b.hasLightIntensity)
      && (a.hasVisibleAreas ==> b.hasVisibleAreas)
  {
  }

  // ---------------------------------------------------------------------------
  // Header

  /** Everything the header stores. The decoder reads all of it but keeps only the
      major version (for the gates) and the area count; a field the version does not
      store holds 0 here. `isAnalysed` and `hasUnnamedAreas` are the raw bytes the
      decoder compares with 1. */
  datatype Header = Header(
    major: u32,
    minor: u32,
    size: u32,
    isAnalysed: u8,
    places: seq<seq<u8>>,
    hasUnnamedAreas: u8,
    areaCount: u32)

  /** A place name: a 16-bit length, then that many bytes. */
  function DecodePlaceName(s: seq<u8>, pos: nat): (r: Res<seq<u8>>)
    ensures r.Ok? <==> pos + 2 <= |s| && pos + 2 + LittleEndian(s[pos..pos + 2]) <= |s|
    ensures r.Ok? ==> |r.value| < 0x1_0000 && r.next == pos + 2 + |r.value|
  {
    match ReadU16(s, pos) case Fail(err) => Fail(err) case Ok(len, p) =>
    ReadBytes(s, p, len as nat)
  }

  /** Read a field that the version may leave out; a left-out field reads as `absent`
      and consumes nothing. */
  function ReadIf<T>(present: bool, r: Res<T>, absent: T, pos: nat): (r': Res<T>)
    ensures !present ==> r' == Ok(absent, pos)
    ensures present ==> r' == r
  {
    if present then r else Ok(absent, pos)
  }

  function DecodeHeader(s: seq<u8>): (r: Parsed<Header>)
    ensures r.Parsed? ==> SupportedVersion(r.value.major)
    ensures r.Parsed? ==> ReadU32(s, 0) == Ok(Magic, 4) && ReadU32(s, 4) == Ok(r.value.major, 8)
  {
    match Lift(ReadU32(s, 0)) case Rejected(err) => Rejected(err) case Parsed(magic, p1) =>
    if magic != Magic then Rejected(InvalidMagicNumber(magic)) else
    match Lift(ReadU32(s, p1)) case Rejected(err) => Rejected(err) case Parsed(major, p2) =>
    if major < MinVersion || major > MaxVersion then Rejected(UnsupportedVersion(major)) else
    Lift(DecodeHeaderFields(s, p2, major))
  }

  /** The header fields after the major version, each read only if `major` stores it. */
  function DecodeHeaderFields(s: seq<u8>, pos: nat, major: u32): (r: Res<Header>)
    ensures r.Ok? ==> r.value.major == major
  {
    var sc := SchemaFor(major);
    match ReadIf(sc.hasMinorVersion, ReadU32(s, pos), 0, pos) case Fail(err) => Fail(err) case Ok(minor, p3) =>
    match ReadU32(s, p3) case Fail(err) => Fail(err) case Ok(size, p4) =>
    match ReadIf(sc.hasIsAnalysed, ReadU8(s, p4), 0, p4) case Fail(err) => Fail(err) case Ok(isAnalysed, p5) =>
    match DecodeCounted(s, p5, 2, DecodePlaceName) case Fail(err) => Fail(err) case Ok(places, p6) =>
    match ReadIf(sc.hasUnnamedAreas, ReadU8(s, p6), 0, p6) case Fail(err) => Fail(err) case Ok(hasUnnamedAreas, p7) =>
    match ReadU32(s, p7) case Fail(err) => Fail(err) case Ok(areaCount, p8) =>
    Ok(Header(major, minor, size, isAnalysed, places, hasUnnamedAreas, areaCount), p8)
  }

  // ---------------------------------------------------------------------------
  // Area records

  /** The area flags, read with the version's width and widened to 32 bits. */
  function ReadFlags(s: seq<u8>, pos: nat, width: FlagsWidth): (r: Res<u32>)
    ensures r.Ok? <==> pos + width <= |s|
    ensures r.Ok? ==> r.next == pos + width && r.value as nat < Pow256(width)
  {
    match ReadUInt(s, pos, width) case Fail(err) => Fail(err) case Ok(v, p) =>
    Pow256Values();
    Pow256Monotone(width, 4);
    Ok(v as u32, p)
  }

  /** The fields of an area up to its two corner heights. */
  datatype AreaShape = AreaShape(
    id: u32, flags: u32, northWest: Vector3, southEast: Vector3, northEastZ: F32, southWestZ: F32)

  /** The fields from the connections up to the ladder connections. */
  datatype AreaLinks = AreaLinks(
    connections: Connections, hidingSpots: seq<NavHidingSpot>, approachAreas: seq<ApproachArea>,
    encounterPaths: seq<EncounterPath>, place: u16, ladderConnections: LadderConnections)

  /** The fields from the two occupy times up to the inherited visibility id. */
  datatype AreaTail = AreaTail(
    earliestOccupyFirstTeam: F32, earliestOccupySecondTeam: F32, lightIntensity: LightIntensity,
    visibleAreas: seq<VisibleArea>, inheritVisibilityFromAreaId: u32)

  function MakeArea(sh: AreaShape, li: AreaLinks, ta: AreaTail): NavArea {
    NavArea(sh.id, sh.northWest, sh.southEast, sh.northEastZ, sh.southWestZ, sh.flags,
            li.connections, li.hidingSpots, li.approachAreas, li.encounterPaths, li.place,
            ta.lightIntensity, li.ladderConnections, ta.earliestOccupyFirstTeam,
            ta.earliestOccupySecondTeam, ta.visibleAreas, ta.inheritVisibilityFromAreaId)
  }

  function ShapeOf(a: NavArea): AreaShape {
    AreaShape(a.id, a.flags, a.northWest, a.southEast, a.northEastZ, a.southWestZ)
  }

  function LinksOf(a: NavArea): AreaLinks {
    AreaLinks(a.connections, a.hidingSpots, a.approachAreas, a.encounterPaths, a.place, a.ladderConnections)
  }

  function TailOf(a: NavArea): AreaTail {
    AreaTail(a.earliestOccupyFirstTeam, a.earliestOccupySecondTeam, a.lightIntensity, a.visibleAreas,
             a.inheritVisibilityFromAreaId)
  }

  /** An area is exactly its three groups of fields. */
  lemma AreaGroups(a: NavArea, sh: AreaShape, li: AreaLinks, ta: AreaTail)
    ensures MakeArea(ShapeOf(a), LinksOf(a), TailOf(a)) == a
    ensures ShapeOf(MakeArea(sh, li, ta)) == sh && LinksOf(MakeArea(sh, li, ta)) == li
            && TailOf(MakeArea(sh, li, ta)) == ta
  {
  }

  /** The id, the flags in the version's width, the two corners and the two other
      corner heights: a fixed number of bytes. */
  function DecodeAreaShape(s: seq<u8>, pos: nat, sc: Schema): (r: Res<AreaShape>)
    ensures r.Ok? <==> pos + 36 + sc.flagsBytes <= |s|
    ensures r.Ok? ==> r.next == pos + 36 + sc.flagsBytes && r.value.flags as nat < Pow256(sc.flagsBytes)
  {
    match ReadU32(s, pos) case Fail(err) => Fail(err) case Ok(id, p1) =>
    match ReadFlags(s, p1, sc.flagsBytes) case Fail(err) => Fail(err) case Ok(flags, p2) =>
    match DecodeVector3(s, p2) case Fail(err) => Fail(err) case Ok(northWest, p3) =>
    match DecodeVector3(s, p3) case Fail(err) => Fail(err) case Ok(southEast, p4) =>
    match ReadF32(s, p4) case Fail(err) => Fail(err) case Ok(northEastZ, p5) =>
    match ReadF32(s, p5) case Fail(err) => Fail(err) case Ok(southWestZ, p6) =>
    Ok(AreaShape(id, flags, northWest, southEast, northEastZ, southWestZ), p6)
  }

  /** The connections, the hiding spots, the approach areas where the version stores
      them, the encounter paths, the place and the ladder connections. */
  function DecodeAreaLinks(s: seq<u8>, pos: nat, sc: Schema): (r: Res<AreaLinks>)
    ensures r.Ok? && !sc.hasApproachAreas ==> r.value.approachAreas == []
  {
    match DecodeConnections(s, pos) case Fail(err) => Fail(err) case Ok(connections, p1) =>
    match DecodeCounted(s, p1, 1, DecodeHidingSpot) case Fail(err) => Fail(err) case Ok(hidingSpots, p2) =>
    match ReadIf(sc.hasApproachAreas, DecodeCounted(s, p2, 1, DecodeApproachArea), [], p2) case Fail(err) => Fail(err) case Ok(approachAreas, p3) =>
    match DecodeCounted(s, p3, 4, DecodeEncounterPath) case Fail(err) => Fail(err) case Ok(encounterPaths, p4) =>
    match ReadU16(s, p4) case Fail(err) => Fail(err) case Ok(place, p5) =>
    match DecodeLadderConnections(s, p5) case Fail(err) => Fail(err) case Ok(ladderConnections, p6) =>
    Ok(AreaLinks(connections, hidingSpots, approachAreas, encounterPaths, place, ladderConnections), p6)
  }

  /** The two occupy times, the light intensity and the visible areas where the
      version stores them, and the inherited visibility id. */
  function DecodeAreaTail(s: seq<u8>, pos: nat, sc: Schema): (r: Res<AreaTail>)
    ensures r.Ok? && !sc.hasLightIntensity ==> r.value.lightIntensity == DefaultLightIntensity()
    ensures r.Ok? && !sc.hasVisibleAreas ==> r.value.visibleAreas == []
  {
    match ReadF32(s, pos) case Fail(err) => Fail(err) case Ok(firstTeam, p1) =>
    match ReadF32(s, p1) case Fail(err) => Fail(err) case Ok(secondTeam, p2) =>
    match ReadIf(sc.hasLightIntensity, DecodeLightIntensity(s, p2), DefaultLightIntensity(), p2) case Fail(err) => Fail(err) case Ok(lightIntensity, p3) =>
    match ReadIf(sc.hasVisibleAreas, DecodeCounted(s, p3, 4, DecodeVisibleArea), [], p3) case Fail(err) => Fail(err) case Ok(visibleAreas, p4) =>
    match ReadU32(s, p4) case Fail(err) => Fail(err) case Ok(inheritVisibility, p5) =>
    Ok(AreaTail(firstTeam, secondTeam, lightIntensity, visibleAreas, inheritVisibility), p5)
  }

  /** One area record: its three groups of fields in file order, then 32 bits that are
      skipped without being interpreted. */
  function DecodeArea(s: seq<u8>, pos: nat, sc: Schema): (r: Res<NavArea>)
    ensures r.Ok? ==> r.value.flags as nat < Pow256(sc.flagsBytes)
    ensures r.Ok? && !sc.hasApproachAreas ==> r.value.approachAreas == []
    ensures r.Ok? && !sc.hasLightIntensity ==> r.value.lightIntensity == DefaultLightIntensity()
    ensures r.Ok? && !sc.hasVisibleAreas ==> r.value.visibleAreas == []
  {
    match DecodeAreaShape(s, pos, sc) case Fail(err) => Fail(err) case Ok(shape, p1) =>
    match DecodeAreaLinks(s, p1, sc) case Fail(err) => Fail(err) case Ok(links, p2) =>
    match DecodeAreaTail(s, p2, sc) case Fail(err) => Fail(err) case Ok(tail, p3) =>
    match SkipBytes(s, p3, 4) case Fail(err) => Fail(err) case Ok(_, p4) =>
    Ok(MakeArea(shape, links, tail), p4)
  }

  /** One area record, as a reader for the list combinator. */
  function AreaReader(sc: Schema): Decoder<NavArea> {
    (t: seq<u8>, p: nat) => DecodeArea(t, p, sc)
  }

  /** `n` area records one after another; the first failure ends the read. */
  function DecodeAreas(s: seq<u8>, pos: nat, n: nat, sc: Schema): (r: Res<seq<NavArea>>)
    ensures r.Ok? ==> |r.value| == n
  {
    DecodeMany(s, pos, n, AreaReader(sc))
  }

  // ---------------------------------------------------------------------------
  // The whole file

  /** The header and exactly `area_count` areas, with the position after the last. */
  function DecodeFile(s: seq<u8>): (r: Parsed<(Header, seq<NavArea>)>)
    ensures r.Parsed? ==> SupportedVersion(r.value.0.major) && |r.value.1| == r.value.0.areaCount as nat
  {
    match DecodeHeader(s) case Rejected(err) => Rejected(err) case Parsed(h, p) =>
    match Lift(DecodeAreas(s, p, h.areaCount as nat, SchemaFor(h.major))) case Rejected(err) => Rejected(err) case Parsed(areas, q) =>
    Parsed((h, areas), q)
  }

  /** `read_areas`: the areas of a nav file, or the first error. */
  function Decode(s: seq<u8>): (r: Result<seq<NavArea>>)
    ensures r.Success? ==> ReadU32(s, 0) == Ok(Magic, 4) && ReadU32(s, 4).Ok? && SupportedVersion(ReadU32(s, 4).value)
  {
    match DecodeFile(s)
    case Parsed((_, areas), _) => Success(areas)
    case Rejected(e) => Failure(e)
  }
  // ---------------------------------------------------------------------------
  // The layout the decoder accepts, written out as an encoder

  /** A part of the layout that only some versions store. */
  function Optional(present: bool, e: seq<u8>): (r: seq<u8>)
    ensures |r| == if present then |e| else 0
  {
    if present then e else []
  }

  function EncodePlaceName(name: seq<u8>): seq<u8> {
    EncodeUInt(|name|, 2) + name
  }

  /** A place name can be written only if its length fits the 16-bit count. */
  predicate PlaceNameFits(name: seq<u8>) {
    |name| < 0x1_0000
  }

  /** The header as a file of its version stores it. */
  function EncodeHeader(h: Header): seq<u8> {
    EncodeU32(Magic) + EncodeU32(h.major) + EncodeHeaderFields(h)
  }

  function EncodeHeaderFields(h: Header): seq<u8> {
    var sc := SchemaFor(h.major);
    Optional(sc.hasMinorVersion, EncodeU32(h.minor))
    + EncodeU32(h.size)
    + Optional(sc.hasIsAnalysed, EncodeU8(h.isAnalysed))
    + EncodeCounted(h.places, 2, EncodePlaceName)
    + Optional(sc.hasUnnamedAreas, EncodeU8(h.hasUnnamedAreas))
    + EncodeU32(h.areaCount)
  }

  /** The headers the decoder can return: a supported version, and fields that it
      can read back. */
  predicate HeaderFits(h: Header) {
    SupportedVersion(h.major) && HeaderFieldsFit(h)
  }

  /** Zero in every field the version does not store, and a place table whose counts
      fit 16 bits. */
  predicate HeaderFieldsFit(h: Header) {
    var sc := SchemaFor(h.major);
    && (!sc.hasMinorVersion ==> h.minor == 0)
    && (!sc.hasIsAnalysed ==> h.isAnalysed == 0)
    && (!sc.hasUnnamedAreas ==> h.hasUnnamedAreas == 0)
    && |h.places| < 0x1_0000
    && (forall i :: 0 <= i < |h.places| ==> PlaceNameFits(h.places[i]))
  }

  function EncodeAreaShape(sh: AreaShape, sc: Schema): seq<u8> {
    EncodeU32(sh.id)
    + EncodeUInt(sh.flags as nat, sc.flagsBytes)
    + EncodeVector3(sh.northWest)
    + EncodeVector3(sh.southEast)
    + EncodeF32(sh.northEastZ)
    + EncodeF32(sh.southWestZ)
  }

  function EncodeAreaLinks(li: AreaLinks, sc: Schema): seq<u8> {
    EncodeConnections(li.connections)
    + EncodeCounted(li.hidingSpots, 1, EncodeHidingSpot)
    + Optional(sc.hasApproachAreas, EncodeCounted(li.approachAreas, 1, EncodeApproachArea))
    + EncodeCounted(li.encounterPaths, 4, EncodeEncounterPath)
    + EncodeU16(li.place)
    + EncodeLadderConnections(li.ladderConnections)
  }

  function EncodeAreaTail(ta: AreaTail, sc: Schema): seq<u8> {
    EncodeF32(ta.earliestOccupyFirstTeam)
    + EncodeF32(ta.earliestOccupySecondTeam)
    + Optional(sc.hasLightIntensity, EncodeLightIntensity(ta.lightIntensity))
    + Optional(sc.hasVisibleAreas, EncodeCounted(ta.visibleAreas, 4, EncodeVisibleArea))
    + EncodeU32(ta.inheritVisibilityFromAreaId)
  }

  /** An area record without the 32 skipped bits that end it. */
  function EncodeAreaBody(a: NavArea, sc: Schema): seq<u8> {
    EncodeAreaShape(ShapeOf(a), sc) + EncodeAreaLinks(LinksOf(a), sc) + EncodeAreaTail(TailOf(a), sc)
  }

  /** A whole area record, with zeros in the skipped bits. */
  function EncodeArea(a: NavArea, sc: Schema): seq<u8> {
    EncodeAreaBody(a, sc) + EncodeU32(0)
  }

  /** Flags within their width. */
  predicate ShapeFits(sh: AreaShape, sc: Schema) {
    sh.flags as nat < Pow256(sc.flagsBytes)
  }

  /** Every count within its field, and no approach areas where the version stores
      none. */
  predicate LinksFit(li: AreaLinks, sc: Schema) {
    && ConnectionsFit(li.connections)
    && |li.hidingSpots| < 0x100
    && |li.approachAreas| < 0x100
    && (!sc.hasApproachAreas ==> li.approachAreas == [])
    && |li.encounterPaths| < 0x1_0000_0000
    && (forall i :: 0 <= i < |li.encounterPaths| ==> EncounterPathFits(li.encounterPaths[i]))
    && LadderConnectionsFit(li.ladderConnections)
  }

  /** The default light intensity and no visible areas where the version does not
      store them, and a visible-area count within 32 bits. */
  predicate TailFits(ta: AreaTail, sc: Schema) {
    && (!sc.hasLightIntensity ==> ta.lightIntensity == DefaultLightIntensity())
    && |ta.visibleAreas| < 0x1_0000_0000
    && (!sc.hasVisibleAreas ==> ta.visibleAreas == [])
  }

  /** The areas the decoder can return for a schema: flags within their width, every
      count within its field, and the default value in every field the version does
      not store. */
  predicate AreaFits(a: NavArea, sc: Schema) {
    GroupsFit(ShapeOf(a), LinksOf(a), TailOf(a), sc)
  }

  predicate GroupsFit(sh: AreaShape, li: AreaLinks, ta: AreaTail, sc: Schema) {
    ShapeFits(sh, sc) && LinksFit(li, sc) && TailFits(ta, sc)
  }

  /** The size in bytes of an area record, field by field. */
  function AreaSize(a: NavArea, sc: Schema): nat {
    4 + sc.flagsBytes + 12 + 12 + 4 + 4
    + 16 + 4 * TotalIds(a.connections.lists)
    + 1 + 17 * |a.hidingSpots|
    + (if sc.hasApproachAreas then 1 + 14 * |a.approachAreas| else 0)
    + 4 + PathsSize(a.encounterPaths)
    + 2
    + 8 + 4 * TotalIds(a.ladderConnections.lists)
    + 4 + 4
    + (if sc.hasLightIntensity then 16 else 0)
    + (if sc.hasVisibleAreas then 4 + 5 * |a.visibleAreas| else 0)
    + 4 + 4
  }

  /** The size in bytes of a sequence of encounter paths. */
  function PathsSize(ps: seq<EncounterPath>): nat {
    if ps == [] then 0 else 11 + 5 * |ps[0].spots| + PathsSize(ps[1..])
  }

  /** A whole file: the header, then each area in the layout of the header's version. */
  function EncodeFile(h: Header, areas: seq<NavArea>): seq<u8> {
    EncodeHeader(h) + EncodeAreas(areas, SchemaFor(h.major))
  }

  /** One area record, as a writer for the list combinator. */
  function AreaWriter(sc: Schema): NavArea -> seq<u8> {
    (a: NavArea) => EncodeArea(a, sc)
  }

  function EncodeAreas(areas: seq<NavArea>, sc: Schema): seq<u8> {
    EncodeMany(areas, AreaWriter(sc))
  }

  predicate FileFits(h: Header, areas: seq<NavArea>) {
    && HeaderFits(h)
    && |areas| == h.areaCount as nat
    && (forall i :: 0 <= i < |areas| ==> AreaFits(areas[i], SchemaFor(h.major)))
  }

  // ---------------------------------------------------------------------------
  // Layout of the header

  lemma PlaceNameLayout(s: seq<u8>, pos: nat, name: seq<u8>)
    ensures var r := DecodePlaceName(s, pos);
      r.Ok? ==> PlaceNameFits(r.value) && At(s, pos, EncodePlaceName(r.value))
                && r.next == pos + |EncodePlaceName(r.value)|
    ensures PlaceNameFits(name) && At(s, pos, EncodePlaceName(name)) ==>
      DecodePlaceName(s, pos) == Ok(name, pos + 2 + |name|)
  {
    var r := DecodePlaceName(s, pos);
    if r.Ok? {
      var len := ReadU16(s, pos).value;
      assert |r.value| == len as nat;
      ReadU16Encodes(s, pos);
      AtSlice(s, pos + 2, r.value);
      AtConcat(s, pos, EncodeUInt(|r.value|, 2), r.value);
    }
    if PlaceNameFits(name) && At(s, pos, EncodePlaceName(name)) {
      Pow256Values();
      AtConcat(s, pos, EncodeUInt(|name|, 2), name);
      AtSlice(s, pos + 2, name);
      ReadUIntAt(s, pos, |name|, 2);
    }
  }

  lemma PlaceNameCodec()
    ensures Encodes(DecodePlaceName, EncodePlaceName)
    ensures Inverts(DecodePlaceName, EncodePlaceName, PlaceNameFits)
    ensures forall t: seq<u8>, q: nat :: DecodePlaceName(t, q).Ok? ==> PlaceNameFits(DecodePlaceName(t, q).value)
  {
    forall t: seq<u8>, q: nat | DecodePlaceName(t, q).Ok?
      ensures PlaceNameFits(DecodePlaceName(t, q).value)
      ensures At(t, q, EncodePlaceName(DecodePlaceName(t, q).value))
      ensures DecodePlaceName(t, q).next == q + |EncodePlaceName(DecodePlaceName(t, q).value)|
    {
      PlaceNameLayout(t, q, []);
    }
    forall name: seq<u8>, t: seq<u8>, q: nat | PlaceNameFits(name) && At(t, q, EncodePlaceName(name))
      ensures DecodePlaceName(t, q) == Ok(name, q + |EncodePlaceName(name)|)
    {
      PlaceNameLayout(t, q, name);
    }
  }

  /** The place table: a 16-bit count, then that many names. */
  lemma PlacesEncodes(s: seq<u8>, pos: nat)
    ensures var r := DecodeCounted(s, pos, 2, DecodePlaceName);
      r.Ok? ==> |r.value| < 0x1_0000 && (forall i :: 0 <= i < |r.value| ==> PlaceNameFits(r.value[i]))
                && At(s, pos, EncodeCounted(r.value, 2, EncodePlaceName))
                && r.next == pos + |EncodeCounted(r.value, 2, EncodePlaceName)|
  {
    PlaceNameCodec();
    Pow256Values();
    CountedLayout(s, pos, 2, DecodePlaceName, EncodePlaceName, PlaceNameFits, []);
  }

  lemma PlacesAt(s: seq<u8>, pos: nat, places: seq<seq<u8>>)
    requires |places| < 0x1_0000 && (forall i :: 0 <= i < |places| ==> PlaceNameFits(places[i]))
    requires At(s, pos, EncodeCounted(places, 2, EncodePlaceName))
    ensures DecodeCounted(s, pos, 2, DecodePlaceName) == Ok(places, pos + |EncodeCounted(places, 2, EncodePlaceName)|)
  {
    PlaceNameCodec();
    Pow256Values();
    CountedLayout(s, pos, 2, DecodePlaceName, EncodePlaceName, PlaceNameFits, places);
  }

  /** A 32-bit field that only some versions store. */
  lemma OptionalU32Encodes(s: seq<u8>, pos: nat, present: bool)
    requires pos <= |s|
    ensures var r := ReadIf(present, ReadU32(s, pos), 0, pos);
      r.Ok? ==> (!present ==> r.value == 0) && At(s, pos, Optional(present, EncodeU32(r.value)))
                && r.next == pos + |Optional(present, EncodeU32(r.value))|
  {
    ReadU32Encodes(s, pos);
  }

  lemma OptionalU32At(s: seq<u8>, pos: nat, present: bool, v: u32)
    requires (!present ==> v == 0) && At(s, pos, Optional(present, EncodeU32(v)))
    ensures ReadIf(present, ReadU32(s, pos), 0, pos) == Ok(v, pos + |Optional(present, EncodeU32(v))|)
  {
    if present {
      ReadU32At(s, pos, v);
    }
  }

  /** An 8-bit field that only some versions store. */
  lemma OptionalU8Encodes(s: seq<u8>, pos: nat, present: bool)
    requires pos <= |s|
    ensures var r := ReadIf(present, ReadU8(s, pos), 0, pos);
      r.Ok? ==> (!present ==> r.value == 0) && At(s, pos, Optional(present, EncodeU8(r.value)))
                && r.next == pos + |Optional(present, EncodeU8(r.value))|
  {
    ReadU8Encodes(s, pos);
  }

  lemma OptionalU8At(s: seq<u8>, pos: nat, present: bool, v: u8)
    requires (!present ==> v == 0) && At(s, pos, Optional(present, EncodeU8(v)))
    ensures ReadIf(present, ReadU8(s, pos), 0, pos) == Ok(v, pos + |Optional(present, EncodeU8(v))|)
  {
    if present {
      ReadU8At(s, pos, v);
    }
  }

  /** A successful decode of the header fields is the six reads in file order. */
  lemma HeaderFieldsSteps(s: seq<u8>, pos: nat, major: u32)
    ensures var r := DecodeHeaderFields(s, pos, major); var sc := SchemaFor(major);
      r.Ok? ==>
        var r3 := ReadIf(sc.hasMinorVersion, ReadU32(s, pos), 0, pos);
        r3.Ok? &&
        var r4 := ReadU32(s, r3.next);
        r4.Ok? &&
        var r5 := ReadIf(sc.hasIsAnalysed, ReadU8(s, r4.next), 0, r4.next);
        r5.Ok? &&
        var r6 := DecodeCounted(s, r5.next, 2, DecodePlaceName);
        r6.Ok? &&
        var r7 := ReadIf(sc.hasUnnamedAreas, ReadU8(s, r6.next), 0, r6.next);
        r7.Ok? &&
        var r8 := ReadU32(s, r7.next);
        r8.Ok? &&
        r == Ok(Header(major, r3.value, r4.value, r5.value, r6.value, r7.value, r8.value), r8.next)
  {
  }

  /** The six fields of `h`, each where the previous ends, make up its encoding. */
  lemma HeaderFieldsJoin(s: seq<u8>, pos: nat, h: Header, p3: nat, p4: nat, p5: nat, p6: nat, p7: nat, p8: nat)
    requires var sc := SchemaFor(h.major);
      && At(s, pos, Optional(sc.hasMinorVersion, EncodeU32(h.minor)))
      && p3 == pos + |Optional(sc.hasMinorVersion, EncodeU32(h.minor))|
      && At(s, p3, EncodeU32(h.size)) && p4 == p3 + 4
      && At(s, p4, Optional(sc.hasIsAnalysed, EncodeU8(h.isAnalysed)))
      && p5 == p4 + |Optional(sc.hasIsAnalysed, EncodeU8(h.isAnalysed))|
      && At(s, p5, EncodeCounted(h.places, 2, EncodePlaceName))
      && p6 == p5 + |EncodeCounted(h.places, 2, EncodePlaceName)|
      && At(s, p6, Optional(sc.hasUnnamedAreas, EncodeU8(h.hasUnnamedAreas)))
      && p7 == p6 + |Optional(sc.hasUnnamedAreas, EncodeU8(h.hasUnnamedAreas))|
      && At(s, p7, EncodeU32(h.areaCount)) && p8 == p7 + 4
    ensures At(s, pos, EncodeHeaderFields(h)) && p8 == pos + |EncodeHeaderFields(h)|
  {
    var sc := SchemaFor(h.major);
    At6Join(s, pos, Optional(sc.hasMinorVersion, EncodeU32(h.minor)), EncodeU32(h.size),
      Optional(sc.hasIsAnalysed, EncodeU8(h.isAnalysed)), EncodeCounted(h.places, 2, EncodePlaceName),
      Optional(sc.hasUnnamedAreas, EncodeU8(h.hasUnnamedAreas)), EncodeU32(h.areaCount), p3, p4, p5, p6, p7, p8);
  }

  /** The header fields the decoder read are fields it can read back, and it consumed
      exactly their encoding. */
  lemma HeaderFieldsEncodes(s: seq<u8>, pos: nat, major: u32)
    ensures var r := DecodeHeaderFields(s, pos, major);
      r.Ok? ==> HeaderFieldsFit(r.value) && At(s, pos, EncodeHeaderFields(r.value))
                && r.next == pos + |EncodeHeaderFields(r.value)|
  {
    var r := DecodeHeaderFields(s, pos, major);
    HeaderFieldsSteps(s, pos, major);
    if r.Ok? {
      var sc := SchemaFor(major);
      var r3 := ReadIf(sc.hasMinorVersion, ReadU32(s, pos), 0, pos);
      var r4 := ReadU32(s, r3.next);
      var r5 := ReadIf(sc.hasIsAnalysed, ReadU8(s, r4.next), 0, r4.next);
      var r6 := DecodeCounted(s, r5.next, 2, DecodePlaceName);
      var r7 := ReadIf(sc.hasUnnamedAreas, ReadU8(s, r6.next), 0, r6.next);
      var r8 := ReadU32(s, r7.next);
      OptionalU32Encodes(s, pos, sc.hasMinorVersion);
      ReadU32Encodes(s, r3.next);
      OptionalU8Encodes(s, r4.next, sc.hasIsAnalysed);
      PlacesEncodes(s, r5.next);
      OptionalU8Encodes(s, r6.next, sc.hasUnnamedAreas);
      ReadU32Encodes(s, r7.next);
      HeaderFieldsJoin(s, pos, r.value, r3.next, r4.next, r5.next, r6.next, r7.next, r8.next);
    }
  }

  /** The six reads of the header fields, each succeeding where the previous ended,
      make a successful decode. */
  lemma HeaderFieldsRun(s: seq<u8>, pos: nat, h: Header, p3: nat, p4: nat, p5: nat, p6: nat, p7: nat, p8: nat)
    requires var sc := SchemaFor(h.major);
      && ReadIf(sc.hasMinorVersion, ReadU32(s, pos), 0, pos) == Ok(h.minor, p3)
      && ReadU32(s, p3) == Ok(h.size, p4)
      && ReadIf(sc.hasIsAnalysed, ReadU8(s, p4), 0, p4) == Ok(h.isAnalysed, p5)
      && DecodeCounted(s, p5, 2, DecodePlaceName) == Ok(h.places, p6)
      && ReadIf(sc.hasUnnamedAreas, ReadU8(s, p6), 0, p6) == Ok(h.hasUnnamedAreas, p7)
      && ReadU32(s, p7) == Ok(h.areaCount, p8)
    ensures DecodeHeaderFields(s, pos, h.major) == Ok(h, p8)
  {
  }

  /** The encoding of the header fields, split at the ends of its six fields. */
  lemma HeaderFieldsSplit(s: seq<u8>, pos: nat, h: Header, p3: nat, p5: nat, p6: nat, p7: nat)
    requires At(s, pos, EncodeHeaderFields(h))
    requires var sc := SchemaFor(h.major);
      && p3 == pos + |Optional(sc.hasMinorVersion, EncodeU32(h.minor))|
      && p5 == p3 + 4 + |Optional(sc.hasIsAnalysed, EncodeU8(h.isAnalysed))|
      && p6 == p5 + |EncodeCounted(h.places, 2, EncodePlaceName)|
      && p7 == p6 + |Optional(sc.hasUnnamedAreas, EncodeU8(h.hasUnnamedAreas))|
    ensures var sc := SchemaFor(h.major);
      && At(s, pos, Optional(sc.hasMinorVersion, EncodeU32(h.minor))) && At(s, p3, EncodeU32(h.size))
      && At(s, p3 + 4, Optional(sc.hasIsAnalysed, EncodeU8(h.isAnalysed)))
      && At(s, p5, EncodeCounted(h.places, 2, EncodePlaceName))
      && At(s, p6, Optional(sc.hasUnnamedAreas, EncodeU8(h.hasUnnamedAreas))) && At(s, p7, EncodeU32(h.areaCount))
  {
    var sc := SchemaFor(h.major);
    At6Split(s, pos, Optional(sc.hasMinorVersion, EncodeU32(h.minor)), EncodeU32(h.size),
      Optional(sc.hasIsAnalysed, EncodeU8(h.isAnalysed)), EncodeCounted(h.places, 2, EncodePlaceName),
      Optional(sc.hasUnnamedAreas, EncodeU8(h.hasUnnamedAreas)), EncodeU32(h.areaCount),
      p3, p3 + 4, p5, p6, p7, p7 + 4);
  }

  /** The five fixed-size header fields read back from where their encodings stand. */
  lemma HeaderScalarsRead(s: seq<u8>, pos: nat, h: Header, p3: nat, p5: nat, p6: nat, p7: nat)
    requires var sc := SchemaFor(h.major);
      && (!sc.hasMinorVersion ==> h.minor == 0) && (!sc.hasIsAnalysed ==> h.isAnalysed == 0)
      && (!sc.hasUnnamedAreas ==> h.hasUnnamedAreas == 0)
      && At(s, pos, Optional(sc.hasMinorVersion, EncodeU32(h.minor))) && At(s, p3, EncodeU32(h.size))
      && At(s, p3 + 4, Optional(sc.hasIsAnalysed, EncodeU8(h.isAnalysed)))
      && At(s, p6, Optional(sc.hasUnnamedAreas, EncodeU8(h.hasUnnamedAreas))) && At(s, p7, EncodeU32(h.areaCount))
      && p3 == pos + |Optional(sc.hasMinorVersion, EncodeU32(h.minor))|
      && p5 == p3 + 4 + |Optional(sc.hasIsAnalysed, EncodeU8(h.isAnalysed))|
      && p7 == p6 + |Optional(sc.hasUnnamedAreas, EncodeU8(h.hasUnnamedAreas))|
    ensures var sc := SchemaFor(h.major);
      && ReadIf(sc.hasMinorVersion, ReadU32(s, pos), 0, pos) == Ok(h.minor, p3)
      && ReadU32(s, p3) == Ok(h.size, p3 + 4)
      && ReadIf(sc.hasIsAnalysed, ReadU8(s, p3 + 4), 0, p3 + 4) == Ok(h.isAnalysed, p5)
      && ReadIf(sc.hasUnnamedAreas, ReadU8(s, p6), 0, p6) == Ok(h.hasUnnamedAreas, p7)
      && ReadU32(s, p7) == Ok(h.areaCount, p7 + 4)
  {
    var sc := SchemaFor(h.major);
    OptionalU32At(s, pos, sc.hasMinorVersion, h.minor);
    ReadU32At(s, p3, h.size);
    OptionalU8At(s, p3 + 4, sc.hasIsAnalysed, h.isAnalysed);
    OptionalU8At(s, p6, sc.hasUnnamedAreas, h.hasUnnamedAreas);
    ReadU32At(s, p7, h.areaCount);
  }

  /** The header fields' encoding ends 4 bytes after the place where the area
      count begins. */
  lemma HeaderFieldsLength(h: Header, pos: nat, p3: nat, p5: nat, p6: nat, p7: nat)
    requires var sc := SchemaFor(h.major);
      && p3 == pos + |Optional(sc.hasMinorVersion, EncodeU32(h.minor))|
      && p5 == p3 + 4 + |Optional(sc.hasIsAnalysed, EncodeU8(h.isAnalysed))|
      && p6 == p5 + |EncodeCounted(h.places, 2, EncodePlaceName)|
      && p7 == p6 + |Optional(sc.hasUnnamedAreas, EncodeU8(h.hasUnnamedAreas))|
    ensures p7 + 4 == pos + |EncodeHeaderFields(h)|
  {
  }

  /** Reading where the encoding of header fields stands gives the fields back. */
  lemma HeaderFieldsInverts(s: seq<u8>, pos: nat, h: Header)
    requires HeaderFieldsFit(h) && At(s, pos, EncodeHeaderFields(h))
    ensures DecodeHeaderFields(s, pos, h.major) == Ok(h, pos + |EncodeHeaderFields(h)|)
  {
    var sc := SchemaFor(h.major);
    var p3 := pos + |Optional(sc.hasMinorVersion, EncodeU32(h.minor))|;
    var p5 := p3 + 4 + |Optional(sc.hasIsAnalysed, EncodeU8(h.isAnalysed))|;
    var p6 := p5 + |EncodeCounted(h.places, 2, EncodePlaceName)|;
    var p7 := p6 + |Optional(sc.hasUnnamedAreas, EncodeU8(h.hasUnnamedAreas))|;
    HeaderFieldsSplit(s, pos, h, p3, p5, p6, p7);
    HeaderScalarsRead(s, pos, h, p3, p5, p6, p7);
    PlacesAt(s, p5, h.places);
    HeaderFieldsLength(h, pos, p3, p5, p6, p7);
    HeaderFieldsRun(s, pos, h, p3, p3 + 4, p5, p6, p7, p7 + 4);
  }

  /** A header the decoder accepts is one of the headers `HeaderFits` describes, and
      the decoder consumed exactly its encoding. */
  lemma HeaderEncodes(s: seq<u8>)
    ensures var r := DecodeHeader(s);
      r.Parsed? ==> HeaderFits(r.value) && At(s, 0, EncodeHeader(r.value)) && r.next == |EncodeHeader(r.value)|
  {
    var r := DecodeHeader(s);
    if r.Parsed? {
      var h := r.value;
      assert ReadU32(s, 0) == Ok(Magic, 4) && ReadU32(s, 4) == Ok(h.major, 8);
      assert Lift(DecodeHeaderFields(s, 8, h.major)) == r;
      ReadU32Encodes(s, 0);
      ReadU32Encodes(s, 4);
      HeaderFieldsEncodes(s, 8, h.major);
      At3(s, 0, EncodeU32(Magic), EncodeU32(h.major), EncodeHeaderFields(h));
    }
  }

  /** Reading where the encoding of a header stands gives the header back. */
  lemma HeaderInverts(s: seq<u8>, h: Header)
    requires HeaderFits(h) && At(s, 0, EncodeHeader(h))
    ensures DecodeHeader(s) == Parsed(h, |EncodeHeader(h)|)
  {
    At3(s, 0, EncodeU32(Magic), EncodeU32(h.major), EncodeHeaderFields(h));
    ReadU32At(s, 0, Magic);
    ReadU32At(s, 4, h.major);
    HeaderFieldsInverts(s, 8, h);
  }

  // ---------------------------------------------------------------------------
  // Layout of an area record, field by field

  lemma FlagsEncodes(s: seq<u8>, pos: nat, width: FlagsWidth)
    ensures var r := ReadFlags(s, pos, width);
      r.Ok? ==> At(s, pos, EncodeUInt(r.value as nat, width))
  {
    ReadUIntEncodes(s, pos, width);
  }

  lemma FlagsAt(s: seq<u8>, pos: nat, width: FlagsWidth, v: u32)
    requires v as nat < Pow256(width) && At(s, pos, EncodeUInt(v as nat, width))
    ensures ReadFlags(s, pos, width) == Ok(v, pos + width)
  {
    ReadUIntAt(s, pos, v as nat, width);
  }

  lemma HidingSpotsEncodes(s: seq<u8>, pos: nat)
    ensures var r := DecodeCounted(s, pos, 1, DecodeHidingSpot);
      r.Ok? ==> |r.value| < 0x100 && At(s, pos, EncodeCounted(r.value, 1, EncodeHidingSpot))
                && r.next == pos + |EncodeCounted(r.value, 1, EncodeHidingSpot)|
  {
    HidingSpotCodec();
    Pow256Values();
    CountedLayout(s, pos, 1, DecodeHidingSpot, EncodeHidingSpot, Always, []);
  }

  lemma HidingSpotsAt(s: seq<u8>, pos: nat, xs: seq<NavHidingSpot>)
    requires |xs| < 0x100 && At(s, pos, EncodeCounted(xs, 1, EncodeHidingSpot))
    ensures DecodeCounted(s, pos, 1, DecodeHidingSpot) == Ok(xs, pos + |EncodeCounted(xs, 1, EncodeHidingSpot)|)
  {
    HidingSpotCodec();
    Pow256Values();
    CountedLayout(s, pos, 1, DecodeHidingSpot, EncodeHidingSpot, Always, xs);
  }

  lemma ApproachAreasEncodes(s: seq<u8>, pos: nat, present: bool)
    requires pos <= |s|
    ensures var r := ReadIf(present, DecodeCounted(s, pos, 1, DecodeApproachArea), [], pos);
      r.Ok? ==> (!present ==> r.value == []) && |r.value| < 0x100
                && At(s, pos, Optional(present, EncodeCounted(r.value, 1, EncodeApproachArea)))
                && r.next == pos + |Optional(present, EncodeCounted(r.value, 1, EncodeApproachArea))|
  {
    if present {
      ApproachAreaCodec();
      Pow256Values();
      CountedLayout(s, pos, 1, DecodeApproachArea, EncodeApproachArea, Always, []);
    }
  }

  lemma ApproachAreasAt(s: seq<u8>, pos: nat, present: bool, xs: seq<ApproachArea>)
    requires |xs| < 0x100 && (!present ==> xs == [])
    requires At(s, pos, Optional(present, EncodeCounted(xs, 1, EncodeApproachArea)))
    ensures ReadIf(present, DecodeCounted(s, pos, 1, DecodeApproachArea), [], pos)
      == Ok(xs, pos + |Optional(present, EncodeCounted(xs, 1, EncodeApproachArea))|)
  {
    if present {
      ApproachAreaCodec();
      Pow256Values();
      CountedLayout(s, pos, 1, DecodeApproachArea, EncodeApproachArea, Always, xs);
    }
  }

  lemma EncounterPathsEncodes(s: seq<u8>, pos: nat)
    ensures var r := DecodeCounted(s, pos, 4, DecodeEncounterPath);
      r.Ok? ==> |r.value| < 0x1_0000_0000 && (forall i :: 0 <= i < |r.value| ==> EncounterPathFits(r.value[i]))
                && At(s, pos, EncodeCounted(r.value, 4, EncodeEncounterPath))
                && r.next == pos + |EncodeCounted(r.value, 4, EncodeEncounterPath)|
  {
    EncounterPathCodec();
    Pow256Values();
    CountedLayout(s, pos, 4, DecodeEncounterPath, EncodeEncounterPath, EncounterPathFits, []);
  }

  lemma EncounterPathsAt(s: seq<u8>, pos: nat, xs: seq<EncounterPath>)
    requires |xs| < 0x1_0000_0000 && (forall i :: 0 <= i < |xs| ==> EncounterPathFits(xs[i]))
    requires At(s, pos, EncodeCounted(xs, 4, EncodeEncounterPath))
    ensures DecodeCounted(s, pos, 4, DecodeEncounterPath) == Ok(xs, pos + |EncodeCounted(xs, 4, EncodeEncounterPath)|)
  {
    EncounterPathCodec();
    Pow256Values();
    CountedLayout(s, pos, 4, DecodeEncounterPath, EncodeEncounterPath, EncounterPathFits, xs);
  }

  lemma LightEncodes(s: seq<u8>, pos: nat, present: bool)
    requires pos <= |s|
    ensures var r := ReadIf(present, DecodeLightIntensity(s, pos), DefaultLightIntensity(), pos);
      r.Ok? ==> (!present ==> r.value == DefaultLightIntensity())
                && At(s, pos, Optional(present, EncodeLightIntensity(r.value)))
                && r.next == pos + |Optional(present, EncodeLightIntensity(r.value))|
  {
    if present && DecodeLightIntensity(s, pos).Ok? {
      LightIntensityLayout(s, pos, DecodeLightIntensity(s, pos).value);
    }
  }

  lemma LightAt(s: seq<u8>, pos: nat, present: bool, l: LightIntensity)
    requires (!present ==> l == DefaultLightIntensity()) && At(s, pos, Optional(present, EncodeLightIntensity(l)))
    ensures ReadIf(present, DecodeLightIntensity(s, pos), DefaultLightIntensity(), pos)
      == Ok(l, pos + |Optional(present, EncodeLightIntensity(l))|)
  {
    if present {
      LightIntensityLayout(s, pos, l);
    }
  }

  lemma VisibleAreasEncodes(s: seq<u8>, pos: nat, present: bool)
    requires pos <= |s|
    ensures var r := ReadIf(present, DecodeCounted(s, pos, 4, DecodeVisibleArea), [], pos);
      r.Ok? ==> (!present ==> r.value == []) && |r.value| < 0x1_0000_0000
                && At(s, pos, Optional(present, EncodeCounted(r.value, 4, EncodeVisibleArea)))
                && r.next == pos + |Optional(present, EncodeCounted(r.value, 4, EncodeVisibleArea))|
  {
    if present {
      VisibleAreaCodec();
      Pow256Values();
      CountedLayout(s, pos, 4, DecodeVisibleArea, EncodeVisibleArea, Always, []);
    }
  }

  lemma VisibleAreasAt(s: seq<u8>, pos: nat, present: bool, xs: seq<VisibleArea>)
    requires |xs| < 0x1_0000_0000 && (!present ==> xs == [])
    requires At(s, pos, Optional(present, EncodeCounted(xs, 4, EncodeVisibleArea)))
    ensures ReadIf(present, DecodeCounted(s, pos, 4, DecodeVisibleArea), [], pos)
      == Ok(xs, pos + |Optional(present, EncodeCounted(xs, 4, EncodeVisibleArea))|)
  {
    if present {
      VisibleAreaCodec();
      Pow256Values();
      CountedLayout(s, pos, 4, DecodeVisibleArea, EncodeVisibleArea, Always, xs);
    }
  }

  // ---------------------------------------------------------------------------
  // Layout of the first group: fixed width

  /** A successful decode of the first group is its six reads at fixed offsets. */
  lemma AreaShapeSteps(s: seq<u8>, pos: nat, sc: Schema)
    ensures var r := DecodeAreaShape(s, pos, sc); var w := sc.flagsBytes;
      r.Ok? ==>
        && ReadU32(s, pos) == Ok(r.value.id, pos + 4)
        && ReadFlags(s, pos + 4, w) == Ok(r.value.flags, pos + 4 + w)
        && DecodeVector3(s, pos + 4 + w) == Ok(r.value.northWest, pos + 16 + w)
        && DecodeVector3(s, pos + 16 + w) == Ok(r.value.southEast, pos + 28 + w)
        && ReadF32(s, pos + 28 + w) == Ok(r.value.northEastZ, pos + 32 + w)
        && ReadF32(s, pos + 32 + w) == Ok(r.value.southWestZ, pos + 36 + w)
  {
  }

  lemma AreaShapeEncodes(s: seq<u8>, pos: nat, sc: Schema)
    ensures var r := DecodeAreaShape(s, pos, sc);
      r.Ok? ==> ShapeFits(r.value, sc) && At(s, pos, EncodeAreaShape(r.value, sc))
                && r.next == pos + |EncodeAreaShape(r.value, sc)|
  {
    var r := DecodeAreaShape(s, pos, sc);
    if r.Ok? {
      AreaShapeSteps(s, pos, sc);
      AreaShapeReads(s, pos, r.value, sc);
    }
  }

  /** Six successful reads at the fixed offsets stand on the encoding of what they
      read. */
  lemma AreaShapeReads(s: seq<u8>, pos: nat, sh: AreaShape, sc: Schema)
    requires var w := sc.flagsBytes;
      && ReadU32(s, pos) == Ok(sh.id, pos + 4)
      && ReadFlags(s, pos + 4, w) == Ok(sh.flags, pos + 4 + w)
      && DecodeVector3(s, pos + 4 + w) == Ok(sh.northWest, pos + 16 + w)
      && DecodeVector3(s, pos + 16 + w) == Ok(sh.southEast, pos + 28 + w)
      && ReadF32(s, pos + 28 + w) == Ok(sh.northEastZ, pos + 32 + w)
      && ReadF32(s, pos + 32 + w) == Ok(sh.southWestZ, pos + 36 + w)
    ensures At(s, pos, EncodeAreaShape(sh, sc)) && |EncodeAreaShape(sh, sc)| == 36 + sc.flagsBytes
  {
    var w := sc.flagsBytes;
    ReadU32Encodes(s, pos);
    FlagsEncodes(s, pos + 4, w);
    Vector3Layout(s, pos + 4 + w, sh.northWest);
    Vector3Layout(s, pos + 16 + w, sh.southEast);
    ReadF32Encodes(s, pos + 28 + w);
    ReadF32Encodes(s, pos + 32 + w);
    AreaShapeJoin(s, pos, sh, sc);
  }

  /** The six fields of the first group, each at its fixed offset, make up its
      encoding. */
  lemma AreaShapeJoin(s: seq<u8>, pos: nat, sh: AreaShape, sc: Schema)
    requires var w := sc.flagsBytes;
      && At(s, pos, EncodeU32(sh.id))
      && At(s, pos + 4, EncodeUInt(sh.flags as nat, w))
      && At(s, pos + 4 + w, EncodeVector3(sh.northWest))
      && At(s, pos + 16 + w, EncodeVector3(sh.southEast))
      && At(s, pos + 28 + w, EncodeF32(sh.northEastZ))
      && At(s, pos + 32 + w, EncodeF32(sh.southWestZ))
    ensures At(s, pos, EncodeAreaShape(sh, sc)) && |EncodeAreaShape(sh, sc)| == 36 + sc.flagsBytes
  {
    var w := sc.flagsBytes;
    assert |EncodeUInt(sh.flags as nat, w)| == w;
    At6Join(s, pos, EncodeU32(sh.id), EncodeUInt(sh.flags as nat, w), EncodeVector3(sh.northWest),
      EncodeVector3(sh.southEast), EncodeF32(sh.northEastZ), EncodeF32(sh.southWestZ),
      pos + 4, pos + 4 + w, pos + 16 + w, pos + 28 + w, pos + 32 + w, pos + 36 + w);
  }

  lemma AreaShapeInverts(s: seq<u8>, pos: nat, sh: AreaShape, sc: Schema, q: nat)
    requires ShapeFits(sh, sc) && At(s, pos, EncodeAreaShape(sh, sc)) && q == pos + |EncodeAreaShape(sh, sc)|
    ensures DecodeAreaShape(s, pos, sc) == Ok(sh, q)
  {
    var w := sc.flagsBytes;
    assert |EncodeUInt(sh.flags as nat, w)| == w;
    At6Split(s, pos, EncodeU32(sh.id), EncodeUInt(sh.flags as nat, w), EncodeVector3(sh.northWest),
      EncodeVector3(sh.southEast), EncodeF32(sh.northEastZ), EncodeF32(sh.southWestZ),
      pos + 4, pos + 4 + w, pos + 16 + w, pos + 28 + w, pos + 32 + w, pos + 36 + w);
    ReadU32At(s, pos, sh.id);
    FlagsAt(s, pos + 4, w, sh.flags);
    Vector3Layout(s, pos + 4 + w, sh.northWest);
    Vector3Layout(s, pos + 16 + w, sh.southEast);
    ReadF32At(s, pos + 28 + w, sh.northEastZ);
    ReadF32At(s, pos + 32 + w, sh.southWestZ);
  }

  // ---------------------------------------------------------------------------
  // Layout of the second group

  /** A successful decode of the second group is the six reads in file order. */
  lemma AreaLinksSteps(s: seq<u8>, pos: nat, sc: Schema)
    ensures var r := DecodeAreaLinks(s, pos, sc);
      r.Ok? ==>
        var r1 := DecodeConnections(s, pos);
        r1.Ok? &&
        var r2 := DecodeCounted(s, r1.next, 1, DecodeHidingSpot);
        r2.Ok? &&
        var r3 := ReadIf(sc.hasApproachAreas, DecodeCounted(s, r2.next, 1, DecodeApproachArea), [], r2.next);
        r3.Ok? &&
        var r4 := DecodeCounted(s, r3.next, 4, DecodeEncounterPath);
        r4.Ok? &&
        var r5 := ReadU16(s, r4.next);
        r5.Ok? &&
        var r6 := DecodeLadderConnections(s, r5.next);
        r6.Ok? &&
        r == Ok(AreaLinks(r1.value, r2.value, r3.value, r4.value, r5.value, r6.value), r6.next)
  {
  }

  /** The six reads of the second group succeed one after the other, ending at the
      given positions, and return the fields of `li`. */
  predicate LinksReadAt(s: seq<u8>, pos: nat, li: AreaLinks, sc: Schema, p1: nat, p2: nat, p3: nat, p4: nat, p5: nat, p6: nat) {
      && DecodeConnections(s, pos) == Ok(li.connections, p1)
      && DecodeCounted(s, p1, 1, DecodeHidingSpot) == Ok(li.hidingSpots, p2)
      && ReadIf(sc.hasApproachAreas, DecodeCounted(s, p2, 1, DecodeApproachArea), [], p2) == Ok(li.approachAreas, p3)
      && DecodeCounted(s, p3, 4, DecodeEncounterPath) == Ok(li.encounterPaths, p4)
      && ReadU16(s, p4) == Ok(li.place, p5)
      && DecodeLadderConnections(s, p5) == Ok(li.ladderConnections, p6)
  }

  /** The six reads of the second group, each succeeding where the previous ended,
      make a successful decode. */
  lemma AreaLinksRun(s: seq<u8>, pos: nat, li: AreaLinks, sc: Schema, p1: nat, p2: nat, p3: nat, p4: nat, p5: nat, p6: nat)
    requires LinksReadAt(s, pos, li, sc, p1, p2, p3, p4, p5, p6)
    ensures DecodeAreaLinks(s, pos, sc) == Ok(li, p6)
  {
  }

  /** The six fields of the second group, each where the previous ends, make up its
      encoding. */
  lemma AreaLinksJoin(s: seq<u8>, pos: nat, li: AreaLinks, sc: Schema, p1: nat, p2: nat, p3: nat, p4: nat, p5: nat, p6: nat)
    requires
      && At(s, pos, EncodeConnections(li.connections))
      && p1 == pos + |EncodeConnections(li.connections)|
      && At(s, p1, EncodeCounted(li.hidingSpots, 1, EncodeHidingSpot))
      && p2 == p1 + |EncodeCounted(li.hidingSpots, 1, EncodeHidingSpot)|
      && At(s, p2, Optional(sc.hasApproachAreas, EncodeCounted(li.approachAreas, 1, EncodeApproachArea)))
      && p3 == p2 + |Optional(sc.hasApproachAreas, EncodeCounted(li.approachAreas, 1, EncodeApproachArea))|
      && At(s, p3, EncodeCounted(li.encounterPaths, 4, EncodeEncounterPath))
      && p4 == p3 + |EncodeCounted(li.encounterPaths, 4, EncodeEncounterPath)|
      && At(s, p4, EncodeU16(li.place)) && p5 == p4 + 2
      && At(s, p5, EncodeLadderConnections(li.ladderConnections))
      && p6 == p5 + |EncodeLadderConnections(li.ladderConnections)|
    ensures At(s, pos, EncodeAreaLinks(li, sc)) && p6 == pos + |EncodeAreaLinks(li, sc)|
  {
    At6Join(s, pos, EncodeConnections(li.connections), EncodeCounted(li.hidingSpots, 1, EncodeHidingSpot),
      Optional(sc.hasApproachAreas, EncodeCounted(li.approachAreas, 1, EncodeApproachArea)),
      EncodeCounted(li.encounterPaths, 4, EncodeEncounterPath), EncodeU16(li.place),
      EncodeLadderConnections(li.ladderConnections), p1, p2, p3, p4, p5, p6);
  }

  /** Six successful reads of the second group stand on the encoding of what they read,
      and what they read fits. */
  lemma AreaLinksReads(s: seq<u8>, pos: nat, li: AreaLinks, sc: Schema, p1: nat, p2: nat, p3: nat, p4: nat, p5: nat, p6: nat)
    requires
      && DecodeConnections(s, pos) == Ok(li.connections, p1)
      && DecodeCounted(s, p1, 1, DecodeHidingSpot) == Ok(li.hidingSpots, p2)
      && ReadIf(sc.hasApproachAreas, DecodeCounted(s, p2, 1, DecodeApproachArea), [], p2) == Ok(li.approachAreas, p3)
      && DecodeCounted(s, p3, 4, DecodeEncounterPath) == Ok(li.encounterPaths, p4)
      && ReadU16(s, p4) == Ok(li.place, p5)
      && DecodeLadderConnections(s, p5) == Ok(li.ladderConnections, p6)
    ensures LinksFit(li, sc) && At(s, pos, EncodeAreaLinks(li, sc)) && p6 == pos + |EncodeAreaLinks(li, sc)|
  {
    ConnectionsLayout(s, pos, li.connections);
    HidingSpotsEncodes(s, p1);
    ApproachAreasEncodes(s, p2, sc.hasApproachAreas);
    EncounterPathsEncodes(s, p3);
    ReadU16Encodes(s, p4);
    LadderConnectionsLayout(s, p5, li.ladderConnections);
    AreaLinksJoin(s, pos, li, sc, p1, p2, p3, p4, p5, p6);
  }

  lemma AreaLinksEncodes(s: seq<u8>, pos: nat, sc: Schema)
    ensures var r := DecodeAreaLinks(s, pos, sc);
      r.Ok? ==> LinksFit(r.value, sc) && At(s, pos, EncodeAreaLinks(r.value, sc))
                && r.next == pos + |EncodeAreaLinks(r.value, sc)|
  {
    var r := DecodeAreaLinks(s, pos, sc);
    AreaLinksSteps(s, pos, sc);
    if r.Ok? {
      var r1 := DecodeConnections(s, pos);
      var r2 := DecodeCounted(s, r1.next, 1, DecodeHidingSpot);
      var r3 := ReadIf(sc.hasApproachAreas, DecodeCounted(s, r2.next, 1, DecodeApproachArea), [], r2.next);
      var r4 := DecodeCounted(s, r3.next, 4, DecodeEncounterPath);
      var r5 := ReadU16(s, r4.next);
      var r6 := DecodeLadderConnections(s, r5.next);
      AreaLinksReads(s, pos, r.value, sc, r1.next, r2.next, r3.next, r4.next, r5.next, r6.next);
    }
  }

  /** The encoding of the second group, split into its six fields. */
  lemma AreaLinksSplit(s: seq<u8>, pos: nat, li: AreaLinks, sc: Schema, p1: nat, p2: nat, p3: nat, p4: nat, p5: nat, p6: nat)
    requires At(s, pos, EncodeAreaLinks(li, sc))
    requires
      && p1 == pos + |EncodeConnections(li.connections)|
      && p2 == p1 + |EncodeCounted(li.hidingSpots, 1, EncodeHidingSpot)|
      && p3 == p2 + |Optional(sc.hasApproachAreas, EncodeCounted(li.approachAreas, 1, EncodeApproachArea))|
      && p4 == p3 + |EncodeCounted(li.encounterPaths, 4, EncodeEncounterPath)|
      && p5 == p4 + 2
      && p6 == p5 + |EncodeLadderConnections(li.ladderConnections)|
    ensures
      && At(s, pos, EncodeConnections(li.connections))
      && At(s, p1, EncodeCounted(li.hidingSpots, 1, EncodeHidingSpot))
      && At(s, p2, Optional(sc.hasApproachAreas, EncodeCounted(li.approachAreas, 1, EncodeApproachArea)))
      && At(s, p3, EncodeCounted(li.encounterPaths, 4, EncodeEncounterPath))
      && At(s, p4, EncodeU16(li.place))
      && At(s, p5, EncodeLadderConnections(li.ladderConnections))
      && p6 == pos + |EncodeAreaLinks(li, sc)|
  {
    At6Split(s, pos, EncodeConnections(li.connections), EncodeCounted(li.hidingSpots, 1, EncodeHidingSpot),
      Optional(sc.hasApproachAreas, EncodeCounted(li.approachAreas, 1, EncodeApproachArea)),
      EncodeCounted(li.encounterPaths, 4, EncodeEncounterPath), EncodeU16(li.place),
      EncodeLadderConnections(li.ladderConnections), p1, p2, p3, p4, p5, p6);
  }

  /** The connections, hiding spots and approach areas of a fitting second group read
      back from where they stand. */
  lemma AreaLinksReadBackFront(s: seq<u8>, pos: nat, li: AreaLinks, sc: Schema, p1: nat, p2: nat, p3: nat)
    requires ConnectionsFit(li.connections) && |li.hidingSpots| < 0x100
    requires |li.approachAreas| < 0x100 && (!sc.hasApproachAreas ==> li.approachAreas == [])
    requires
      && p1 == pos + |EncodeConnections(li.connections)|
      && p2 == p1 + |EncodeCounted(li.hidingSpots, 1, EncodeHidingSpot)|
      && p3 == p2 + |Optional(sc.hasApproachAreas, EncodeCounted(li.approachAreas, 1, EncodeApproachArea))|
      && At(s, pos, EncodeConnections(li.connections))
      && At(s, p1, EncodeCounted(li.hidingSpots, 1, EncodeHidingSpot))
      && At(s, p2, Optional(sc.hasApproachAreas, EncodeCounted(li.approachAreas, 1, EncodeApproachArea)))
    ensures
      && DecodeConnections(s, pos) == Ok(li.connections, p1)
      && DecodeCounted(s, p1, 1, DecodeHidingSpot) == Ok(li.hidingSpots, p2)
      && ReadIf(sc.hasApproachAreas, DecodeCounted(s, p2, 1, DecodeApproachArea), [], p2) == Ok(li.approachAreas, p3)
  {
    ConnectionsLayout(s, pos, li.connections);
    HidingSpotsAt(s, p1, li.hidingSpots);
    ApproachAreasAt(s, p2, sc.hasApproachAreas, li.approachAreas);
  }

  /** The encounter paths, place and ladder connections of a fitting second group read
      back from where they stand. */
  lemma AreaLinksReadBackRest(s: seq<u8>, li: AreaLinks, p3: nat, p4: nat, p5: nat, p6: nat)
    requires |li.encounterPaths| < 0x1_0000_0000
    requires forall i :: 0 <= i < |li.encounterPaths| ==> EncounterPathFits(li.encounterPaths[i])
    requires LadderConnectionsFit(li.ladderConnections)
    requires
      && p4 == p3 + |EncodeCounted(li.encounterPaths, 4, EncodeEncounterPath)|
      && p5 == p4 + 2
      && p6 == p5 + |EncodeLadderConnections(li.ladderConnections)|
      && At(s, p3, EncodeCounted(li.encounterPaths, 4, EncodeEncounterPath))
      && At(s, p4, EncodeU16(li.place))
      && At(s, p5, EncodeLadderConnections(li.ladderConnections))
    ensures
      && DecodeCounted(s, p3, 4, DecodeEncounterPath) == Ok(li.encounterPaths, p4)
      && ReadU16(s, p4) == Ok(li.place, p5)
      && DecodeLadderConnections(s, p5) == Ok(li.ladderConnections, p6)
  {
    EncounterPathsAt(s, p3, li.encounterPaths);
    ReadU16At(s, p4, li.place);
    LadderConnectionsLayout(s, p5, li.ladderConnections);
  }

  /** The six fields of a fitting second group read back from where its encoding
      stands. */
  lemma AreaLinksReadBack(s: seq<u8>, pos: nat, li: AreaLinks, sc: Schema, p1: nat, p2: nat, p3: nat, p4: nat, p5: nat, q: nat)
    requires LinksFit(li, sc) && At(s, pos, EncodeAreaLinks(li, sc))
    requires
      && p1 == pos + |EncodeConnections(li.connections)|
      && p2 == p1 + |EncodeCounted(li.hidingSpots, 1, EncodeHidingSpot)|
      && p3 == p2 + |Optional(sc.hasApproachAreas, EncodeCounted(li.approachAreas, 1, EncodeApproachArea))|
      && p4 == p3 + |EncodeCounted(li.encounterPaths, 4, EncodeEncounterPath)|
      && p5 == p4 + 2
      && q == pos + |EncodeAreaLinks(li, sc)|
    ensures DecodeAreaLinks(s, pos, sc) == Ok(li, q)
  {
    AreaLinksSplit(s, pos, li, sc, p1, p2, p3, p4, p5, p5 + |EncodeLadderConnections(li.ladderConnections)|);
    AreaLinksReadBackFront(s, pos, li, sc, p1, p2, p3);
    AreaLinksReadBackRest(s, li, p3, p4, p5, q);
    AreaLinksRun(s, pos, li, sc, p1, p2, p3, p4, p5, q);
  }

  lemma AreaLinksInverts(s: seq<u8>, pos: nat, li: AreaLinks, sc: Schema, q: nat)
    requires LinksFit(li, sc) && At(s, pos, EncodeAreaLinks(li, sc)) && q == pos + |EncodeAreaLinks(li, sc)|
    ensures DecodeAreaLinks(s, pos, sc) == Ok(li, q)
  {
    var p1 := pos + |EncodeConnections(li.connections)|;
    var p2 := p1 + |EncodeCounted(li.hidingSpots, 1, EncodeHidingSpot)|;
    var p3 := p2 + |Optional(sc.hasApproachAreas, EncodeCounted(li.approachAreas, 1, EncodeApproachArea))|;
    var p4 := p3 + |EncodeCounted(li.encounterPaths, 4, EncodeEncounterPath)|;
    AreaLinksReadBack(s, pos, li, sc, p1, p2, p3, p4, p4 + 2, q);
  }

  // ---------------------------------------------------------------------------
  // Layout of the third group

  /** A successful decode of the third group is the five reads in file order. */
  lemma AreaTailSteps(s: seq<u8>, pos: nat, sc: Schema)
    ensures var r := DecodeAreaTail(s, pos, sc);
      r.Ok? ==>
        var r1 := ReadF32(s, pos);
        r1.Ok? &&
        var r2 := ReadF32(s, r1.next);
        r2.Ok? &&
        var r3 := ReadIf(sc.hasLightIntensity, DecodeLightIntensity(s, r2.next), DefaultLightIntensity(), r2.next);
        r3.Ok? &&
        var r4 := ReadIf(sc.hasVisibleAreas, DecodeCounted(s, r3.next, 4, DecodeVisibleArea), [], r3.next);
        r4.Ok? &&
        var r5 := ReadU32(s, r4.next);
        r5.Ok? &&
        r == Ok(AreaTail(r1.value, r2.value, r3.value, r4.value, r5.value), r5.next)
  {
  }

  /** The five reads of the third group, each succeeding where the previous ended,
      make a successful decode. */
  lemma AreaTailRun(s: seq<u8>, pos: nat, ta: AreaTail, sc: Schema, p1: nat, p2: nat, p3: nat, p4: nat, p5: nat)
    requires
      && ReadF32(s, pos) == Ok(ta.earliestOccupyFirstTeam, p1)
      && ReadF32(s, p1) == Ok(ta.earliestOccupySecondTeam, p2)
      && ReadIf(sc.hasLightIntensity, DecodeLightIntensity(s, p2), DefaultLightIntensity(), p2) == Ok(ta.lightIntensity, p3)
      && ReadIf(sc.hasVisibleAreas, DecodeCounted(s, p3, 4, DecodeVisibleArea), [], p3) == Ok(ta.visibleAreas, p4)
      && ReadU32(s, p4) == Ok(ta.inheritVisibilityFromAreaId, p5)
    ensures DecodeAreaTail(s, pos, sc) == Ok(ta, p5)
  {
  }

  /** The five fields of the third group, each where the previous ends, make up its
      encoding. */
  lemma AreaTailJoin(s: seq<u8>, pos: nat, ta: AreaTail, sc: Schema, p1: nat, p2: nat, p3: nat, p4: nat, p5: nat)
    requires
      && p1 == pos + 4
      && p2 == p1 + 4
      && p3 == p2 + |Optional(sc.hasLightIntensity, EncodeLightIntensity(ta.lightIntensity))|
      && p4 == p3 + |Optional(sc.hasVisibleAreas, EncodeCounted(ta.visibleAreas, 4, EncodeVisibleArea))|
      && p5 == p4 + 4
      && At(s, pos, EncodeF32(ta.earliestOccupyFirstTeam))
      && At(s, p1, EncodeF32(ta.earliestOccupySecondTeam))
      && At(s, p2, Optional(sc.hasLightIntensity, EncodeLightIntensity(ta.lightIntensity)))
      && At(s, p3, Optional(sc.hasVisibleAreas, EncodeCounted(ta.visibleAreas, 4, EncodeVisibleArea)))
      && At(s, p4, EncodeU32(ta.inheritVisibilityFromAreaId))
    ensures At(s, pos, EncodeAreaTail(ta, sc)) && p5 == pos + |EncodeAreaTail(ta, sc)|
  {
    At5Join(s, pos, EncodeF32(ta.earliestOccupyFirstTeam), EncodeF32(ta.earliestOccupySecondTeam),
      Optional(sc.hasLightIntensity, EncodeLightIntensity(ta.lightIntensity)),
      Optional(sc.hasVisibleAreas, EncodeCounted(ta.visibleAreas, 4, EncodeVisibleArea)),
      EncodeU32(ta.inheritVisibilityFromAreaId), p1, p2, p3, p4, p5);
  }

  /** Five successful reads of the third group stand on the encoding of what they read,
      and what they read fits. */
  lemma AreaTailReads(s: seq<u8>, pos: nat, ta: AreaTail, sc: Schema, p1: nat, p2: nat, p3: nat, p4: nat, p5: nat)
    requires
      && ReadF32(s, pos) == Ok(ta.earliestOccupyFirstTeam, p1)
      && ReadF32(s, p1) == Ok(ta.earliestOccupySecondTeam, p2)
      && ReadIf(sc.hasLightIntensity, DecodeLightIntensity(s, p2), DefaultLightIntensity(), p2) == Ok(ta.lightIntensity, p3)
      && ReadIf(sc.hasVisibleAreas, DecodeCounted(s, p3, 4, DecodeVisibleArea), [], p3) == Ok(ta.visibleAreas, p4)
      && ReadU32(s, p4) == Ok(ta.inheritVisibilityFromAreaId, p5)
    ensures TailFits(ta, sc) && At(s, pos, EncodeAreaTail(ta, sc)) && p5 == pos + |EncodeAreaTail(ta, sc)|
  {
    ReadF32Encodes(s, pos);
    ReadF32Encodes(s, p1);
    LightEncodes(s, p2, sc.hasLightIntensity);
    VisibleAreasEncodes(s, p3, sc.hasVisibleAreas);
    ReadU32Encodes(s, p4);
    AreaTailJoin(s, pos, ta, sc, p1, p2, p3, p4, p5);
  }

  lemma AreaTailEncodes(s: seq<u8>, pos: nat, sc: Schema)
    ensures var r := DecodeAreaTail(s, pos, sc);
      r.Ok? ==> TailFits(r.value, sc) && At(s, pos, EncodeAreaTail(r.value, sc))
                && r.next == pos + |EncodeAreaTail(r.value, sc)|
  {
    var r := DecodeAreaTail(s, pos, sc);
    AreaTailSteps(s, pos, sc);
    if r.Ok? {
      var r1 := ReadF32(s, pos);
      var r2 := ReadF32(s, r1.next);
      var r3 := ReadIf(sc.hasLightIntensity, DecodeLightIntensity(s, r2.next), DefaultLightIntensity(), r2.next);
      var r4 := ReadIf(sc.hasVisibleAreas, DecodeCounted(s, r3.next, 4, DecodeVisibleArea), [], r3.next);
      var r5 := ReadU32(s, r4.next);
      AreaTailReads(s, pos, r.value, sc, r1.next, r2.next, r3.next, r4.next, r5.next);
    }
  }

  /** The encoding of the third group, split into its five fields. */
  lemma AreaTailSplit(s: seq<u8>, pos: nat, ta: AreaTail, sc: Schema, p1: nat, p2: nat, p3: nat, p4: nat, p5: nat)
    requires At(s, pos, EncodeAreaTail(ta, sc))
    requires
      && p1 == pos + 4
      && p2 == p1 + 4
      && p3 == p2 + |Optional(sc.hasLightIntensity, EncodeLightIntensity(ta.lightIntensity))|
      && p4 == p3 + |Optional(sc.hasVisibleAreas, EncodeCounted(ta.visibleAreas, 4, EncodeVisibleArea))|
      && p5 == p4 + 4
    ensures
      && At(s, pos, EncodeF32(ta.earliestOccupyFirstTeam))
      && At(s, p1, EncodeF32(ta.earliestOccupySecondTeam))
      && At(s, p2, Optional(sc.hasLightIntensity, EncodeLightIntensity(ta.lightIntensity)))
      && At(s, p3, Optional(sc.hasVisibleAreas, EncodeCounted(ta.visibleAreas, 4, EncodeVisibleArea)))
      && At(s, p4, EncodeU32(ta.inheritVisibilityFromAreaId))
      && p5 == pos + |EncodeAreaTail(ta, sc)|
  {
    At5Split(s, pos, EncodeF32(ta.earliestOccupyFirstTeam), EncodeF32(ta.earliestOccupySecondTeam),
      Optional(sc.hasLightIntensity, EncodeLightIntensity(ta.lightIntensity)),
      Optional(sc.hasVisibleAreas, EncodeCounted(ta.visibleAreas, 4, EncodeVisibleArea)),
      EncodeU32(ta.inheritVisibilityFromAreaId), p1, p2, p3, p4, p5);
  }

  /** The five fields of a fitting third group read back from where its encoding
      stands. */
  lemma AreaTailReadBack(s: seq<u8>, pos: nat, ta: AreaTail, sc: Schema, p1: nat, p2: nat, p3: nat, p4: nat, q: nat)
    requires TailFits(ta, sc) && At(s, pos, EncodeAreaTail(ta, sc))
    requires
      && p1 == pos + 4
      && p2 == p1 + 4
      && p3 == p2 + |Optional(sc.hasLightIntensity, EncodeLightIntensity(ta.lightIntensity))|
      && p4 == p3 + |Optional(sc.hasVisibleAreas, EncodeCounted(ta.visibleAreas, 4, EncodeVisibleArea))|
      && q == pos + |EncodeAreaTail(ta, sc)|
    ensures
      && ReadF32(s, pos) == Ok(ta.earliestOccupyFirstTeam, p1)
      && ReadF32(s, p1) == Ok(ta.earliestOccupySecondTeam, p2)
      && ReadIf(sc.hasLightIntensity, DecodeLightIntensity(s, p2), DefaultLightIntensity(), p2) == Ok(ta.lightIntensity, p3)
      && ReadIf(sc.hasVisibleAreas, DecodeCounted(s, p3, 4, DecodeVisibleArea), [], p3) == Ok(ta.visibleAreas, p4)
      && ReadU32(s, p4) == Ok(ta.inheritVisibilityFromAreaId, q)
  {
    AreaTailSplit(s, pos, ta, sc, p1, p2, p3, p4, p4 + 4);
    ReadF32At(s, pos, ta.earliestOccupyFirstTeam);
    ReadF32At(s, p1, ta.earliestOccupySecondTeam);
    LightAt(s, p2, sc.hasLightIntensity, ta.lightIntensity);
    VisibleAreasAt(s, p3, sc.hasVisibleAreas, ta.visibleAreas);
    ReadU32At(s, p4, ta.inheritVisibilityFromAreaId);
  }

  lemma AreaTailInverts(s: seq<u8>, pos: nat, ta: AreaTail, sc: Schema, q: nat)
    requires TailFits(ta, sc) && At(s, pos, EncodeAreaTail(ta, sc)) && q == pos + |EncodeAreaTail(ta, sc)|
    ensures DecodeAreaTail(s, pos, sc) == Ok(ta, q)
  {
    var p3 := pos + 8 + |Optional(sc.hasLightIntensity, EncodeLightIntensity(ta.lightIntensity))|;
    var p4 := p3 + |Optional(sc.hasVisibleAreas, EncodeCounted(ta.visibleAreas, 4, EncodeVisibleArea))|;
    AreaTailReadBack(s, pos, ta, sc, pos + 4, pos + 8, p3, p4, q);
    AreaTailRun(s, pos, ta, sc, pos + 4, pos + 8, p3, p4, q);
  }

  // ---------------------------------------------------------------------------
  // Layout of a whole area record

  /** A successful decode of an area is its three groups, one after the other, and 32
      bits after them. */
  lemma AreaSteps(s: seq<u8>, pos: nat, sc: Schema)
    ensures var r := DecodeArea(s, pos, sc);
      r.Ok? ==>
        var r1 := DecodeAreaShape(s, pos, sc);
        r1.Ok? &&
        var r2 := DecodeAreaLinks(s, r1.next, sc);
        r2.Ok? &&
        var r3 := DecodeAreaTail(s, r2.next, sc);
        r3.Ok? && r3.next + 4 <= |s| &&
        r == Ok(MakeArea(r1.value, r2.value, r3.value), r3.next + 4)
  {
  }

  /** Three groups read one after the other, followed by 32 more bits, make a
      successful decode of an area. */
  lemma AreaRun(s: seq<u8>, pos: nat, sc: Schema, a: NavArea, p1: nat, p2: nat, p3: nat, q: nat)
    requires DecodeAreaShape(s, pos, sc) == Ok(ShapeOf(a), p1)
    requires DecodeAreaLinks(s, p1, sc) == Ok(LinksOf(a), p2)
    requires DecodeAreaTail(s, p2, sc) == Ok(TailOf(a), p3)
    requires q == p3 + 4 && q <= |s|
    ensures DecodeArea(s, pos, sc) == Ok(a, q)
  {
    AreaGroups(a, ShapeOf(a), LinksOf(a), TailOf(a));
  }

  /** Three groups read one after the other fit, and stand on their encodings. */
  lemma AreaGroupsEncode(s: seq<u8>, pos: nat, sc: Schema, sh: AreaShape, li: AreaLinks, ta: AreaTail, p1: nat, p2: nat, p3: nat)
    requires DecodeAreaShape(s, pos, sc) == Ok(sh, p1)
    requires DecodeAreaLinks(s, p1, sc) == Ok(li, p2)
    requires DecodeAreaTail(s, p2, sc) == Ok(ta, p3)
    ensures ShapeFits(sh, sc) && LinksFit(li, sc) && TailFits(ta, sc)
    ensures At(s, pos, EncodeAreaShape(sh, sc) + EncodeAreaLinks(li, sc) + EncodeAreaTail(ta, sc))
    ensures p3 == pos + |EncodeAreaShape(sh, sc) + EncodeAreaLinks(li, sc) + EncodeAreaTail(ta, sc)|
  {
    AreaShapeEncodes(s, pos, sc);
    AreaLinksEncodes(s, p1, sc);
    AreaTailEncodes(s, p2, sc);
    At3Join(s, pos, EncodeAreaShape(sh, sc), EncodeAreaLinks(li, sc), EncodeAreaTail(ta, sc), p1, p2, p3);
  }

  /** An area the decoder read is one `AreaFits` describes, the bytes it read before the
      skipped 32 bits are the encoding of its fields, and it moved past the whole
      record. */
  lemma AreaEncodes(s: seq<u8>, pos: nat, sc: Schema)
    ensures var r := DecodeArea(s, pos, sc);
      r.Ok? ==> AreaFits(r.value, sc) && At(s, pos, EncodeAreaBody(r.value, sc))
                && r.next == pos + |EncodeArea(r.value, sc)|
  {
    var r := DecodeArea(s, pos, sc);
    AreaSteps(s, pos, sc);
    if r.Ok? {
      var r1 := DecodeAreaShape(s, pos, sc);
      var r2 := DecodeAreaLinks(s, r1.next, sc);
      var r3 := DecodeAreaTail(s, r2.next, sc);
      AreaGroupsEncode(s, pos, sc, r1.value, r2.value, r3.value, r1.next, r2.next, r3.next);
      AreaGroups(r.value, r1.value, r2.value, r3.value);
    }
  }

  /** Reading where the three groups of a fitting area are written, with any 32 bits
      after them, gives the area back and moves past the whole record. */
  lemma AreaInverts(s: seq<u8>, pos: nat, sc: Schema, a: NavArea, q: nat)
    requires AreaFits(a, sc) && At(s, pos, EncodeAreaBody(a, sc))
    requires q == pos + |EncodeArea(a, sc)| && q <= |s|
    ensures DecodeArea(s, pos, sc) == Ok(a, q)
  {
    var sh, li, ta := ShapeOf(a), LinksOf(a), TailOf(a);
    var p1 := pos + |EncodeAreaShape(sh, sc)|;
    var p2 := p1 + |EncodeAreaLinks(li, sc)|;
    var p3 := p2 + |EncodeAreaTail(ta, sc)|;
    At3Split(s, pos, EncodeAreaShape(sh, sc), EncodeAreaLinks(li, sc), EncodeAreaTail(ta, sc), p1, p2, p3);
    AreaShapeInverts(s, pos, sh, sc, p1);
    AreaLinksInverts(s, p1, li, sc, p2);
    AreaTailInverts(s, p2, ta, sc, p3);
    AreaRun(s, pos, sc, a, p1, p2, p3, q);
  }

  // ---------------------------------------------------------------------------
  // Record sizes

  /** The size in bytes of the header, field by field, with the version thresholds
      at which its optional fields appear. */
  function HeaderSize(h: Header): nat {
    4 + 4
    + (if h.major >= 10 then 4 else 0)
    + 4
    + (if h.major >= 14 then 1 else 0)
    + 2 + PlacesSize(h.places)
    + (if h.major >= 12 then 1 else 0)
    + 4
  }

  /** The size in bytes of a place table's names, each with its 16-bit length. */
  function PlacesSize(places: seq<seq<u8>>): nat {
    if places == [] then 0 else 2 + |places[0]| + PlacesSize(places[1..])
  }

  lemma {:induction false} PlacesLength(places: seq<seq<u8>>)
    ensures |EncodeMany(places, EncodePlaceName)| == PlacesSize(places)
    decreases |places|
  {
    if places != [] {
      PlacesLength(places[1..]);
    }
  }

  /** A header is as long as its fields' sizes add up to. */
  lemma HeaderLength(h: Header)
    ensures |EncodeHeader(h)| == HeaderSize(h)
  {
    PlacesLength(h.places);
  }

  /** A header the decoder accepts took exactly `HeaderSize` bytes: the optional
      fields only in the versions that store them, and the place table's names. */
  lemma HeaderConsumes(s: seq<u8>, h: Header, p: nat)
    requires DecodeHeader(s) == Parsed(h, p)
    ensures p == HeaderSize(h) && HeaderFits(h)
  {
    HeaderEncodes(s);
    HeaderLength(h);
  }

  lemma {:induction false} PathsLength(ps: seq<EncounterPath>)
    ensures |EncodeMany(ps, EncodeEncounterPath)| == PathsSize(ps)
    decreases |ps|
  {
    if ps != [] {
      EncounterPathLength(ps[0]);
      PathsLength(ps[1..]);
    }
  }

  lemma LinksLength(li: AreaLinks, sc: Schema)
    ensures |EncodeAreaLinks(li, sc)| ==
      16 + 4 * TotalIds(li.connections.lists)
      + 1 + 17 * |li.hidingSpots|
      + (if sc.hasApproachAreas then 1 + 14 * |li.approachAreas| else 0)
      + 4 + PathsSize(li.encounterPaths)
      + 2
      + 8 + 4 * TotalIds(li.ladderConnections.lists)
  {
    ConnectionsLayout([], 0, li.connections);
    LadderConnectionsLayout([], 0, li.ladderConnections);
    EncodeManyLength(li.hidingSpots, EncodeHidingSpot, 17);
    EncodeManyLength(li.approachAreas, EncodeApproachArea, 14);
    PathsLength(li.encounterPaths);
  }

  lemma TailLength(ta: AreaTail, sc: Schema)
    ensures |EncodeAreaTail(ta, sc)| ==
      4 + 4
      + (if sc.hasLightIntensity then 16 else 0)
      + (if sc.hasVisibleAreas then 4 + 5 * |ta.visibleAreas| else 0)
      + 4
  {
    EncodeManyLength(ta.visibleAreas, EncodeVisibleArea, 5);
  }

  /** An area record is as long as its fields' sizes add up to. */
  lemma AreaLength(a: NavArea, sc: Schema)
    ensures |EncodeArea(a, sc)| == AreaSize(a, sc)
  {
    LinksLength(LinksOf(a), sc);
    TailLength(TailOf(a), sc);
  }


  // ---------------------------------------------------------------------------
  // The area list

  /** Every area of `xs` fits the schema. */
  predicate AreasFit(xs: seq<NavArea>, sc: Schema) {
    forall i :: 0 <= i < |xs| ==> AreaFits(xs[i], sc)
  }

  /** A list with a first area and the rest: its records, and which of them fit. */
  lemma AreasCons(x: NavArea, xs: seq<NavArea>, sc: Schema)
    ensures EncodeAreas([x] + xs, sc) == EncodeArea(x, sc) + EncodeAreas(xs, sc)
    ensures AreasFit([x] + xs, sc) <==> AreaFits(x, sc) && AreasFit(xs, sc)
  {
    assert ([x] + xs)[0] == x && ([x] + xs)[1..] == xs;
    if AreaFits(x, sc) && AreasFit(xs, sc) {
      forall i | 0 <= i < |[x] + xs| ensures AreaFits(([x] + xs)[i], sc) {
        if i > 0 { assert ([x] + xs)[i] == xs[i - 1]; }
      }
    }
    if AreasFit([x] + xs, sc) {
      forall i | 0 <= i < |xs| ensures AreaFits(xs[i], sc) {
        assert xs[i] == ([x] + xs)[i + 1];
      }
    }
  }

  /** A fitting area's record followed by the records of fitting areas. */
  lemma AreasJoin(x: NavArea, xs: seq<NavArea>, sc: Schema, pos: nat, p: nat, q: nat)
    requires AreaFits(x, sc) && p == pos + |EncodeArea(x, sc)|
    requires AreasFit(xs, sc) && q == p + |EncodeAreas(xs, sc)|
    ensures AreasFit([x] + xs, sc) && q == pos + |EncodeAreas([x] + xs, sc)|
  {
    AreasCons(x, xs, sc);
  }

  /** A successful read of `n > 0` areas is a first area and a read of `n - 1` more. */
  lemma AreasSplit(s: seq<u8>, pos: nat, n: nat, sc: Schema, xs: seq<NavArea>, q: nat) returns (x: NavArea, p: nat, rest: seq<NavArea>)
    requires n > 0 && DecodeAreas(s, pos, n, sc) == Ok(xs, q)
    ensures DecodeArea(s, pos, sc) == Ok(x, p) && DecodeAreas(s, p, n - 1, sc) == Ok(rest, q)
    ensures xs == [x] + rest
  {
    x, p := DecodeArea(s, pos, sc).value, DecodeArea(s, pos, sc).next;
    rest := DecodeAreas(s, p, n - 1, sc).value;
  }

  /** A first area and a read of `n - 1` more make a read of `n` areas. */
  lemma AreasRun(s: seq<u8>, pos: nat, n: nat, sc: Schema, x: NavArea, p: nat, rest: seq<NavArea>, xs: seq<NavArea>, q: nat)
    requires n > 0 && DecodeArea(s, pos, sc) == Ok(x, p) && DecodeAreas(s, p, n - 1, sc) == Ok(rest, q)
    requires xs == [x] + rest
    ensures DecodeAreas(s, pos, n, sc) == Ok(xs, q)
  {
  }

  /** The areas a successful read returns fit the schema, and the read moved past as
      many bytes as their records have, ending within the data. */
  lemma {:induction false} AreasEncode(s: seq<u8>, pos: nat, n: nat, sc: Schema, xs: seq<NavArea>, q: nat)
    requires pos <= |s| && DecodeAreas(s, pos, n, sc) == Ok(xs, q)
    ensures AreasFit(xs, sc) && q == pos + |EncodeAreas(xs, sc)| && q <= |s|
    decreases n
  {
    if n > 0 {
      var x, p, rest := AreasSplit(s, pos, n, sc, xs, q);
      AreaEnds(s, pos, sc, x, p);
      AreasEncode(s, p, n - 1, sc, rest, q);
      AreasEncodeStep(s, pos, sc, x, p, rest, xs, q);
    }
  }

  /** A read area ends within the data. */
  lemma AreaEnds(s: seq<u8>, pos: nat, sc: Schema, a: NavArea, p: nat)
    requires DecodeArea(s, pos, sc) == Ok(a, p)
    ensures p <= |s|
  {
    AreaSteps(s, pos, sc);
  }

  /** A read area in front of fitting areas whose records end at `q`. */
  lemma AreasEncodeStep(s: seq<u8>, pos: nat, sc: Schema, x: NavArea, p: nat, rest: seq<NavArea>, xs: seq<NavArea>, q: nat)
    requires DecodeArea(s, pos, sc) == Ok(x, p) && xs == [x] + rest
    requires AreasFit(rest, sc) && q == p + |EncodeAreas(rest, sc)|
    ensures AreasFit(xs, sc) && q == pos + |EncodeAreas(xs, sc)|
  {
    AreaSpan(s, pos, sc, x, p);
    AreasJoin(x, rest, sc, pos, p, q);
  }

  /** One area read fits, moved past its record, and ended within the data. */
  lemma AreaSpan(s: seq<u8>, pos: nat, sc: Schema, a: NavArea, p: nat)
    requires DecodeArea(s, pos, sc) == Ok(a, p)
    ensures AreaFits(a, sc) && p == pos + |EncodeArea(a, sc)| && p <= |s|
  {
    AreaEncodes(s, pos, sc);
    AreaSteps(s, pos, sc);
  }

  /** Reading `n` areas where the records of `n` fitting areas are written one after
      another gives them back, and ends after the last record. */
  lemma {:induction false} AreasInvert(s: seq<u8>, pos: nat, n: nat, xs: seq<NavArea>, sc: Schema, q: nat)
    requires n == |xs| && AreasFit(xs, sc)
    requires At(s, pos, EncodeAreas(xs, sc)) && q == pos + |EncodeAreas(xs, sc)|
    ensures DecodeAreas(s, pos, n, sc) == Ok(xs, q)
    decreases n
  {
    if n > 0 {
      var x, rest := xs[0], xs[1..];
      HeadRest(xs, x, rest);
      var p := pos + |EncodeArea(x, sc)|;
      AreasHead(s, pos, sc, x, rest, xs, p, q);
      AreasInvert(s, p, n - 1, rest, sc, q);
      AreasRun(s, pos, n, sc, x, p, rest, xs, q);
    }
  }

  /** The first record of a list of fitting area records reads back as its area. */
  lemma AreasHead(s: seq<u8>, pos: nat, sc: Schema, x: NavArea, rest: seq<NavArea>, xs: seq<NavArea>, p: nat, q: nat)
    requires xs == [x] + rest && AreasFit(xs, sc)
    requires At(s, pos, EncodeAreas(xs, sc)) && q == pos + |EncodeAreas(xs, sc)|
    requires p == pos + |EncodeArea(x, sc)|
    ensures DecodeArea(s, pos, sc) == Ok(x, p)
    ensures AreasFit(rest, sc) && At(s, p, EncodeAreas(rest, sc)) && q == p + |EncodeAreas(rest, sc)|
  {
    AreasCons(x, rest, sc);
    At2Split(s, pos, EncodeArea(x, sc), EncodeAreas(rest, sc), p, q);
    AreaRecordAt(s, pos, sc, x, p);
  }

  /** A fitting area's record, skip field included, reads back as the area. */
  lemma AreaRecordAt(s: seq<u8>, pos: nat, sc: Schema, a: NavArea, p: nat)
    requires AreaFits(a, sc) && At(s, pos, EncodeArea(a, sc)) && p == pos + |EncodeArea(a, sc)|
    ensures DecodeArea(s, pos, sc) == Ok(a, p)
  {
    At2Split(s, pos, EncodeAreaBody(a, sc), EncodeU32(0), pos + |EncodeAreaBody(a, sc)|, p);
    AreaInverts(s, pos, sc, a, p);
  }

  lemma AreaReaderStable(sc: Schema)
    ensures Stable(AreaReader(sc))
  {
    forall s: seq<u8>, s': seq<u8>, pos: nat | s <= s' && AreaReader(sc)(s, pos).Ok?
      ensures AreaReader(sc)(s', pos) == AreaReader(sc)(s, pos)
    {
      var r := DecodeArea(s, pos, sc);
      AreaExtends(s, s', pos, sc, r.value, r.next);
    }
  }

  /** A successful area-list read gives the same areas on data that continues the input. */
  lemma AreasExtend(s: seq<u8>, s': seq<u8>, pos: nat, n: nat, sc: Schema, xs: seq<NavArea>, q: nat)
    requires s <= s' && DecodeAreas(s, pos, n, sc) == Ok(xs, q)
    ensures DecodeAreas(s', pos, n, sc) == Ok(xs, q)
  {
    AreaReaderStable(sc);
    DecodeManyExtends(s, s', pos, n, AreaReader(sc));
  }

  /** A successfully read area reads the same on data that continues the input. */
  lemma AreaExtends(s: seq<u8>, s': seq<u8>, pos: nat, sc: Schema, a: NavArea, p: nat)
    requires s <= s' && DecodeArea(s, pos, sc) == Ok(a, p)
    ensures DecodeArea(s', pos, sc) == Ok(a, p)
  {
    AreaEncodes(s, pos, sc);
    AreaSteps(s, pos, sc);
    AtExtends(s, s', pos, EncodeAreaBody(a, sc));
    AreaInverts(s', pos, sc, a, p);
  }
}
