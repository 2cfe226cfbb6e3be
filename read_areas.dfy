/** `read_areas` as a whole: what the decode of a complete file promises, and the
    decoder itself as a method that advances through the stream read by read. */
module ReadAreas {
  import opened Wire
  import opened NavMesh
  import opened Parser

  // ---------------------------------------------------------------------------
  // The checks at the start of the file

  /** With fewer than four bytes not even the magic number can be read: the decode
      fails with the reader's error for the 32 bits it asked for. */
  lemma ShortInput(s: seq<u8>)
    requires |s| < 4
    ensures Decode(s) == Failure(ReadError(NotEnoughData(32, 8 * |s|)))
  {
  }

  /** The decode fails with `InvalidMagicNumber(m)` exactly when the first 32-bit
      word can be read and is `m`, a value other than the magic number. */
  lemma MagicChecked(s: seq<u8>, m: u32)
    ensures Decode(s) == Failure(InvalidMagicNumber(m)) <==> ReadU32(s, 0) == Ok(m, 4) && m != Magic
  {
  }

  /** Once the magic number is wrong nothing after it is looked at: any bytes may
      follow the first word. */
  lemma MagicOnly(s: seq<u8>, t: seq<u8>)
    requires |s| >= 4 && ReadU32(s, 0).value != Magic
    ensures Decode(s[..4] + t) == Decode(s) == Failure(InvalidMagicNumber(ReadU32(s, 0).value))
  {
  }

  /** The decode fails with `UnsupportedVersion(v)` exactly when the magic number is
      right and the next word is a version `v` outside 6..16. */
  lemma VersionChecked(s: seq<u8>, v: u32)
    ensures Decode(s) == Failure(UnsupportedVersion(v)) <==>
      ReadU32(s, 0) == Ok(Magic, 4) && ReadU32(s, 4) == Ok(v, 8) && (v < 6 || v > 16)
  {
  }

  // ---------------------------------------------------------------------------
  // The layout of a whole file

  /** What a successful decode read: a header and areas that `FileFits` describes, as
      many bytes as their encoding has, and no more than the input holds. */
  lemma FileEncodes(s: seq<u8>, h: Header, areas: seq<NavArea>, q: nat)
    requires DecodeFile(s) == Parsed((h, areas), q)
    ensures FileFits(h, areas) && q == |EncodeFile(h, areas)| && q <= |s|
  {
    var sc := SchemaFor(h.major);
    var p := |EncodeHeader(h)|;
    HeaderEncodes(s);
    assert DecodeHeader(s) == Parsed(h, p);
    assert DecodeAreas(s, p, h.areaCount as nat, sc) == Ok(areas, q);
    AreasEncode(s, p, h.areaCount as nat, sc, areas, q);
  }

  /** Decoding the encoding of a fitting header and its areas, followed by any bytes,
      gives them back and stops where the encoding ends. */
  lemma FileRoundTrip(h: Header, areas: seq<NavArea>, t: seq<u8>)
    requires FileFits(h, areas)
    ensures DecodeFile(EncodeFile(h, areas) + t) == Parsed((h, areas), |EncodeFile(h, areas)|)
    ensures Decode(EncodeFile(h, areas) + t) == Success(areas)
  {
    var sc := SchemaFor(h.major);
    var s := EncodeFile(h, areas) + t;
    var p := |EncodeHeader(h)|;
    var q := |EncodeFile(h, areas)|;
    AtPrefix(EncodeFile(h, areas), t);
    At2Split(s, 0, EncodeHeader(h), EncodeAreas(areas, sc), p, q);
    HeaderInverts(s, h);
    AreasInvert(s, p, h.areaCount as nat, areas, sc, q);
  }

  /** The bytes after the last area record the decode does not look at, so once the
      whole input has been read the decoder's debug check finds at most 32 bits left
      exactly when at most four bytes follow the encoding. */
  lemma RemainingBits(h: Header, areas: seq<NavArea>, t: seq<u8>)
    requires FileFits(h, areas)
    ensures var s := EncodeFile(h, areas) + t;
      DecodeFile(s).Parsed? && BitsLeft(s, DecodeFile(s).next) == 8 * |t|
      && (BitsLeft(s, DecodeFile(s).next) <= 32 <==> |t| <= 4)
  {
    FileRoundTrip(h, areas, t);
  }

  // ---------------------------------------------------------------------------
  // The decode reads only the bytes it consumes

  /** A header that decodes reads the same on data that continues the input. */
  lemma HeaderExtends(s: seq<u8>, s': seq<u8>, h: Header, p: nat)
    requires s <= s' && DecodeHeader(s) == Parsed(h, p)
    ensures DecodeHeader(s') == Parsed(h, p)
  {
    HeaderEncodes(s);
    AtExtends(s, s', 0, EncodeHeader(h));
    HeaderInverts(s', h);
  }

  /** A successful decode gives the same result on data that continues the input. */
  lemma FileExtends(s: seq<u8>, s': seq<u8>, h: Header, areas: seq<NavArea>, q: nat)
    requires s <= s' && DecodeFile(s) == Parsed((h, areas), q)
    ensures DecodeFile(s') == Parsed((h, areas), q)
  {
    var p := DecodeHeader(s).next;
    var sc := SchemaFor(h.major);
    HeaderExtends(s, s', h, p);
    assert DecodeAreas(s, p, h.areaCount as nat, sc) == Ok(areas, q);
    AreasExtend(s, s', p, h.areaCount as nat, sc, areas, q);
  }

  /** A decode that succeeds on data continuing the input would be the same decode,
      so a prefix of a file shorter than what its decode read does not decode. */
  lemma TruncatedRejected(s: seq<u8>, u: seq<u8>, h: Header, areas: seq<NavArea>, q: nat)
    requires DecodeFile(s) == Parsed((h, areas), q) && u <= s && |u| < q
    ensures DecodeFile(u).Rejected?
  {
    var r := DecodeFile(u);
    if r.Parsed? {
      var (h', areas') := r.value;
      FileEncodes(u, h', areas', r.next);
      FileExtends(u, s, h', areas', r.next);
    }
  }

  /** The magic-number and version checks look only at the first two words, so data
      that continues the input fails them the same way. */
  lemma CheckFailureExtends(u: seq<u8>, s: seq<u8>, e: ParseError)
    requires u <= s && Decode(u) == Failure(e) && !e.ReadError?
    ensures Decode(s) == Failure(e)
  {
    if e.InvalidMagicNumber? {
      MagicChecked(u, e.magic);
      ReadU32Extends(u, s, 0);
      MagicChecked(s, e.magic);
    } else {
      VersionChecked(u, e.version);
      ReadU32Extends(u, s, 0);
      ReadU32Extends(u, s, 4);
      VersionChecked(s, e.version);
    }
  }

  /** A prefix of a file that is shorter than what the file's decode read makes the
      whole decode fail with a read error: no partial list of areas comes back. */
  lemma TruncatedFails(s: seq<u8>, u: seq<u8>, h: Header, areas: seq<NavArea>, q: nat)
    requires DecodeFile(s) == Parsed((h, areas), q) && u <= s && |u| < q
    ensures Decode(u).Failure? && Decode(u).error.ReadError?
  {
    TruncatedRejected(s, u, h, areas, q);
    var e := DecodeFile(u).error;
    if !e.ReadError? {
      CheckFailureExtends(u, s, e);
    }
  }

  /** A successful decode returns exactly as many areas as the header's count, each
      in the form its version stores: flags within their width, every count within
      its field, and the default value in every field the version leaves out. */
  lemma SuccessShape(s: seq<u8>, areas: seq<NavArea>)
    requires Decode(s) == Success(areas)
    ensures DecodeHeader(s).Parsed?
    ensures var h := DecodeHeader(s).value;
      && SupportedVersion(h.major)
      && |areas| == h.areaCount as nat
      && (forall i :: 0 <= i < |areas| ==> AreaFits(areas[i], SchemaFor(h.major)))
  {
    var r := DecodeFile(s);
    FileEncodes(s, r.value.0, r.value.1, r.next);
  }

  // ---------------------------------------------------------------------------
  // A concrete file

  /** The smallest version-9 file: the magic number, version 9, a zero size word, an
      empty place table and no areas. Version 9 stores no minor version, no analysed
      byte and no unnamed-areas byte. */
  const EmptyVersion9: seq<u8> :=
    [0xCE, 0xFA, 0xED, 0xFE, 9, 0, 0, 0, 0, 0, 0, 0, 0, 0, 0, 0, 0, 0]

  /** `EmptyVersion9` is the encoding of the version-9 header with no places and no
      areas. */
  lemma EmptyVersion9Layout()
    ensures EncodeFile(Header(9, 0, 0, 0, [], 0, 0), []) + [] == EmptyVersion9
  {
    var h := Header(9, 0, 0, 0, [], 0, 0);
    assert EncodeU32(Magic) == [0xCE, 0xFA, 0xED, 0xFE];
    assert EncodeU32(9) == [9, 0, 0, 0];
    assert EncodeU32(0) == [0, 0, 0, 0];
    assert EncodeCounted([], 2, EncodePlaceName) == [0, 0];
    assert EncodeHeaderFields(h) == [0, 0, 0, 0] + [0, 0] + [0, 0, 0, 0];
    assert EncodeAreas([], SchemaFor(9)) == [];
  }

  lemma EmptyVersion9Decodes()
    ensures Decode(EmptyVersion9) == Success([])
  {
    var h := Header(9, 0, 0, 0, [], 0, 0);
    EmptyVersion9Layout();
    FileRoundTrip(h, [], []);
  }

  // ---------------------------------------------------------------------------
  // The decoder as `read_areas` writes it: one read after another on a stream
  // position, two loops, and an early return at the first failure

  /** The id, the flags in the version's width, the corners and the corner heights. */
  method ReadAreaShape(data: seq<u8>, pos: nat, sc: Schema) returns (r: Res<AreaShape>)
    ensures r == DecodeAreaShape(data, pos, sc)
  {
    var id := ReadU32(data, pos);
    if id.Fail? { return Fail(id.error); }
    var flags := ReadFlags(data, id.next, sc.flagsBytes);
    if flags.Fail? { return Fail(flags.error); }
    var northWest := DecodeVector3(data, flags.next);
    if northWest.Fail? { return Fail(northWest.error); }
    var southEast := DecodeVector3(data, northWest.next);
    if southEast.Fail? { return Fail(southEast.error); }
    var northEastZ := ReadF32(data, southEast.next);
    if northEastZ.Fail? { return Fail(northEastZ.error); }
    var southWestZ := ReadF32(data, northEastZ.next);
    if southWestZ.Fail? { return Fail(southWestZ.error); }
    return Ok(AreaShape(id.value, flags.value, northWest.value, southEast.value, northEastZ.value,
                        southWestZ.value), southWestZ.next);
  }

  /** The connections, the counted lists, the place and the ladder connections; the
      approach areas only where the version stores them. */
  method ReadAreaLinks(data: seq<u8>, pos: nat, sc: Schema) returns (r: Res<AreaLinks>)
    ensures r == DecodeAreaLinks(data, pos, sc)
  {
    var connections := ReadConnections(data, pos);
    if connections.Fail? { return Fail(connections.error); }
    var hidingSpots := DecodeCounted(data, connections.next, 1, DecodeHidingSpot);
    if hidingSpots.Fail? { return Fail(hidingSpots.error); }
    var approachAreas: Res<seq<ApproachArea>> := Ok([], hidingSpots.next);
    if sc.hasApproachAreas {
      approachAreas := DecodeCounted(data, hidingSpots.next, 1, DecodeApproachArea);
      if approachAreas.Fail? { return Fail(approachAreas.error); }
    }
    var encounterPaths := DecodeCounted(data, approachAreas.next, 4, DecodeEncounterPath);
    if encounterPaths.Fail? { return Fail(encounterPaths.error); }
    var place := ReadU16(data, encounterPaths.next);
    if place.Fail? { return Fail(place.error); }
    var ladders := ReadLadderConnections(data, place.next);
    if ladders.Fail? { return Fail(ladders.error); }
    return Ok(AreaLinks(connections.value, hidingSpots.value, approachAreas.value, encounterPaths.value,
                        place.value, ladders.value), ladders.next);
  }

  /** The occupy times, the light intensity and visible areas where the version stores
      them (the defaults otherwise), and the inherited visibility id. */
  method ReadAreaTail(data: seq<u8>, pos: nat, sc: Schema) returns (r: Res<AreaTail>)
    ensures r == DecodeAreaTail(data, pos, sc)
  {
    var firstTeam := ReadF32(data, pos);
    if firstTeam.Fail? { return Fail(firstTeam.error); }
    var secondTeam := ReadF32(data, firstTeam.next);
    if secondTeam.Fail? { return Fail(secondTeam.error); }
    var light: Res<LightIntensity> := Ok(DefaultLightIntensity(), secondTeam.next);
    if sc.hasLightIntensity {
      light := DecodeLightIntensity(data, secondTeam.next);
      if light.Fail? { return Fail(light.error); }
    }
    var visible: Res<seq<VisibleArea>> := Ok([], light.next);
    if sc.hasVisibleAreas {
      visible := DecodeCounted(data, light.next, 4, DecodeVisibleArea);
      if visible.Fail? { return Fail(visible.error); }
    }
    var inherit := ReadU32(data, visible.next);
    if inherit.Fail? { return Fail(inherit.error); }
    return Ok(AreaTail(firstTeam.value, secondTeam.value, light.value, visible.value, inherit.value),
              inherit.next);
  }

  /** One pass of the area loop: the record's fields, then the skipped 32 bits. */
  method ReadArea(data: seq<u8>, pos: nat, sc: Schema) returns (r: Res<NavArea>)
    ensures r == DecodeArea(data, pos, sc)
  {
    var shape := ReadAreaShape(data, pos, sc);
    if shape.Fail? { return Fail(shape.error); }
    var links := ReadAreaLinks(data, shape.next, sc);
    if links.Fail? { return Fail(links.error); }
    var tail := ReadAreaTail(data, links.next, sc);
    if tail.Fail? { return Fail(tail.error); }
    var skip := SkipBytes(data, tail.next, 4);
    if skip.Fail? { return Fail(skip.error); }
    return Ok(MakeArea(shape.value, links.value, tail.value), skip.next);
  }

  /** The area loop: `n` records pushed in file order; the first failure returns at once
      and no partial list survives. */
  method ReadAreaList(data: seq<u8>, pos: nat, n: nat, sc: Schema) returns (r: Res<seq<NavArea>>)
    ensures r == DecodeAreas(data, pos, n, sc)
  {
    r := ReadAreaLoop(data, pos, n, sc, AreaReader(sc));
  }

  /** The loop itself, proved against any decoder `reader` that agrees with
      `DecodeArea`; keeping the reader abstract keeps the record layout out of the
      loop's proof. */
  method ReadAreaLoop(data: seq<u8>, pos: nat, n: nat, sc: Schema, ghost reader: Decoder<NavArea>)
    returns (r: Res<seq<NavArea>>)
    requires forall s: seq<u8>, q: nat {:trigger DecodeArea(s, q, sc)} :: reader(s, q) == DecodeArea(s, q, sc)
    ensures r == DecodeMany(data, pos, n, reader)
  {
    ghost var spec := DecodeMany(data, pos, n, reader);
    var areas: seq<NavArea> := [];
    var p := pos;
    PrependNothing([], spec, pos);
    for i := 0 to n
      invariant spec == Prepend(areas, DecodeMany(data, p, n - i, reader))
    {
      var area := ReadNextArea(data, p, sc, reader);
      if area.Fail? {
        DecodeManyFirstFails(data, p, n - i, reader, areas, spec);
        return Fail(area.error);
      }
      DecodeManyStep(data, p, n - i, reader, areas, area.value, area.next);
      areas := areas + [area.value];
      p := area.next;
    }
    PrependNothing(areas, Fail(NotEnoughData(0, 0)), p);
    return Ok(areas, p);
  }

  /** `ReadArea` seen through the abstract reader. This is no separate step of
      `read_areas`: it only passes `ReadArea`'s result on, so that `DecodeArea` is not
      unfolded inside `ReadAreaLoop`'s proof. */
  method ReadNextArea(data: seq<u8>, pos: nat, sc: Schema, ghost reader: Decoder<NavArea>) returns (r: Res<NavArea>)
    requires forall s: seq<u8>, q: nat {:trigger DecodeArea(s, q, sc)} :: reader(s, q) == DecodeArea(s, q, sc)
    ensures r == reader(data, pos)
  {
    r := ReadArea(data, pos, sc);
  }

  /** The place table: its 16-bit count, then the loop over the names. Only the
      position after the table is returned. */
  method SkipPlaces(data: seq<u8>, pos: nat) returns (r: Res<()>)
    ensures var d := DecodeCounted(data, pos, 2, DecodePlaceName);
      && (r.Ok? <==> d.Ok?)
      && (r.Ok? ==> r.next == d.next)
      && (r.Fail? ==> r.error == d.error)
  {
    var count := ReadU16(data, pos);
    if count.Fail? { return Fail(count.error); }
    r := SkipPlaceNames(data, count.next, count.value as nat);
  }

  /** The place loop: `n` names, each a 16-bit length and that many bytes, read and
      dropped. */
  method SkipPlaceNames(data: seq<u8>, pos: nat, n: nat) returns (r: Res<()>)
    ensures var d := DecodeMany(data, pos, n, DecodePlaceName);
      && (r.Ok? <==> d.Ok?)
      && (r.Ok? ==> r.next == d.next)
      && (r.Fail? ==> r.error == d.error)
  {
    ghost var spec := DecodeMany(data, pos, n, DecodePlaceName);
    ghost var names: seq<seq<u8>> := [];
    var p := pos;
    PrependNothing([], spec, p);
    for j := 0 to n
      invariant spec == Prepend(names, DecodeMany(data, p, n - j, DecodePlaceName))
    {
      var nameLength := ReadU16(data, p);
      if nameLength.Fail? {
        DecodeManyFirstFails(data, p, n - j, DecodePlaceName, names, spec);
        return Fail(nameLength.error);
      }
      var name := ReadBytes(data, nameLength.next, nameLength.value as nat);
      if name.Fail? {
        DecodeManyFirstFails(data, p, n - j, DecodePlaceName, names, spec);
        return Fail(name.error);
      }
      DecodeManyStep(data, p, n - j, DecodePlaceName, names, name.value, name.next);
      names := names + [name.value];
      p := name.next;
    }
    PrependNothing(names, Fail(NotEnoughData(0, 0)), p);
    return Ok((), p);
  }

  /** `read_areas`: the magic number and version checks, the header fields the version
      stores, the place table, then the area loop. */
  method ReadAreas(data: seq<u8>) returns (r: Result<seq<NavArea>>)
    ensures r == Decode(data)
  {
    var magic := ReadU32(data, 0);
    if magic.Fail? { return Failure(ReadError(magic.error)); }
    if magic.value != Magic { return Failure(InvalidMagicNumber(magic.value)); }
    var version := ReadU32(data, magic.next);
    if version.Fail? { return Failure(ReadError(version.error)); }
    var major := version.value;
    if major < MinVersion || major > MaxVersion { return Failure(UnsupportedVersion(major)); }
    var count := ReadHeaderFields(data, version.next, major);
    if count.Fail? { return Failure(ReadError(count.error)); }
    var areas := ReadAreaList(data, count.next, count.value as nat, SchemaFor(major));
    if areas.Fail? { return Failure(ReadError(areas.error)); }
    return Success(areas.value);
  }

  /** The header fields after the version, kept only as far as the decoder keeps them:
      the area count, with the position after it. */
  method ReadHeaderFields(data: seq<u8>, pos: nat, major: u32) returns (r: Res<u32>)
    ensures var d := DecodeHeaderFields(data, pos, major);
      && (r.Ok? <==> d.Ok?)
      && (r.Ok? ==> r.value == d.value.areaCount && r.next == d.next)
      && (r.Fail? ==> r.error == d.error)
  {
    var sc := SchemaFor(major);
    var p := pos;
    if sc.hasMinorVersion {
      var minor := ReadU32(data, p);
      if minor.Fail? { return Fail(minor.error); }
      p := minor.next;
    }
    var size := ReadU32(data, p);
    if size.Fail? { return Fail(size.error); }
    p := size.next;
    if sc.hasIsAnalysed {
      var isAnalysed := ReadU8(data, p);
      if isAnalysed.Fail? { return Fail(isAnalysed.error); }
      p := isAnalysed.next;
    }
    var places := SkipPlaces(data, p);
    if places.Fail? { return Fail(places.error); }
    p := places.next;
    if sc.hasUnnamedAreas {
      var hasUnnamedAreas := ReadU8(data, p);
      if hasUnnamedAreas.Fail? { return Fail(hasUnnamedAreas.error); }
      p := hasUnnamedAreas.next;
    }
    var areaCount := ReadU32(data, p);
    if areaCount.Fail? { return Fail(areaCount.error); }
    return Ok(areaCount.value, areaCount.next);
  }
}
